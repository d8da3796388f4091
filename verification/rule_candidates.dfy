/** Candidate rules, their review and the bootstrap seeds (db/db_agent_rules.py). */
module RuleCandidates {
  import opened Wrappers
  import opened Text

  datatype Status = Pending | Accepted | Rejected | Other(name: string)
  datatype RuleStatus = Active | Deprecated | Removed

  /** A row of `agent_rule_candidates`; evidence is the decoded JSON object. */
  datatype Candidate = Candidate(
    title: string, ruleText: string, scope: string, severity: string, source: string,
    evidence: map<string, string>, confidence: real, createdAt: real,
    status: Status, reviewedAt: Option<real>, reviewer: string, linkedRule: string)

  /** A row of `agent_rules`. */
  datatype Rule = Rule(
    title: string, ruleText: string, scope: string, severity: string, status: RuleStatus,
    sourceCandidate: string, evidence: map<string, string>, createdAt: real, updatedAt: real)

  datatype Tables = Tables(candidates: map<string, Candidate>, rules: map<string, Rule>)

  datatype Error =
    | TitleRequired | TextRequired | IdRequired | NotFound
    | AlreadyRejected | AlreadyAccepted | InvalidStatus(name: string)

  datatype Form = Form(
    title: string, ruleText: string, scope: string, severity: string, source: string,
    evidence: map<string, string>, confidence: real)

  /******* The operations, on values *******/

  const SEVERITIES: set<string> := {"critical", "error", "warning", "info"}

  function LowerChar(c: char): char {
    if 'A' <= c <= 'Z' then c - 'A' + 'a' else c
  }

  function Lower(s: string): string {
    seq(|s|, i requires 0 <= i < |s| => LowerChar(s[i]))
  }

  function NormalizeSeverity(severity: string): (r: string)
    ensures r in SEVERITIES
    ensures severity in SEVERITIES ==> r == severity
  {
    assert severity in SEVERITIES ==> Lower(severity) == severity;
    if Lower(severity) in SEVERITIES then Lower(severity) else "info"
  }

  function Clamp(x: real): (r: real)
    ensures 0.0 <= r <= 1.0 && (0.0 <= x <= 1.0 ==> r == x)
  {
    if x < 0.0 then 0.0 else if x > 1.0 then 1.0 else x
  }

  function OrElse(s: string, default: string): string {
    if s == "" then default else s
  }

  /** The row an accepted form becomes. */
  function NewCandidate(form: Form, now: real): Candidate {
    Candidate(Strip(form.title), Strip(form.ruleText), form.scope, NormalizeSeverity(form.severity),
              OrElse(form.source, "manual"), form.evidence, Clamp(form.confidence), now,
              Pending, None, "", "")
  }

  /** What a created row keeps of its form. */
  predicate Records(c: Candidate, form: Form, now: real) {
    && c.title == Strip(form.title) && c.ruleText == Strip(form.ruleText)
    && c.scope == form.scope && c.evidence == form.evidence && c.severity == NormalizeSeverity(form.severity)
    && c.source == (if form.source == "" then "manual" else form.source)
    && (0.0 <= form.confidence <= 1.0 ==> c.confidence == form.confidence)
    && (form.confidence < 0.0 ==> c.confidence == 0.0) && (form.confidence > 1.0 ==> c.confidence == 1.0)
    && c.createdAt == now && c.status == Pending && c.reviewedAt == None && c.reviewer == "" && c.linkedRule == ""
  }

  /** A review is dated and signed; without a name it is the agent's. */
  predicate Reviewed(c: Candidate, status: Status, reviewer: string, now: real) {
    c.status == status && c.reviewedAt == Some(now) && c.reviewer == if reviewer == "" then "agent" else reviewer
  }

  /** What stops a review of any kind: no identifier, no such candidate, a status the program does not know. */
  function Refusal(candidates: map<string, Candidate>, id: string): Option<Error> {
    if id == "" then Some(IdRequired)
    else if id !in candidates then Some(NotFound)
    else if candidates[id].status.Other? then Some(InvalidStatus(candidates[id].status.name))
    else None
  }

  /** The letters of a severity may be of either case; any other word counts as info. */
  lemma SeverityIgnoresCase(s: string, severity: string)
    requires severity in SEVERITIES && |s| == |severity|
    requires forall i :: 0 <= i < |s| ==>
               s[i] == severity[i] || ('A' <= s[i] <= 'Z' && s[i] - 'A' + 'a' == severity[i])
    ensures NormalizeSeverity(s) == severity
  {
    assert Lower(severity) == severity;
    forall i | 0 <= i < |s| ensures Lower(s)[i] == severity[i] {
      assert Lower(severity)[i] == severity[i];
    }
    assert Lower(s) == severity;
  }

  function Created(t: Tables, id: string, form: Form, now: real): (Tables, Result<string, Error>) {
    if Strip(form.title) == "" then (t, Failure(TitleRequired))
    else if Strip(form.ruleText) == "" then (t, Failure(TextRequired))
    else (t.(candidates := t.candidates[id := NewCandidate(form, now)]), Success(id))
  }

  predicate LinkStands(t: Tables, c: Candidate) {
    c.linkedRule != "" && c.linkedRule in t.rules
  }

  function NewRule(id: string, c: Candidate, now: real): Rule {
    Rule(c.title, c.ruleText, c.scope, c.severity, Active, id, c.evidence, now, now)
  }

  function ReviewedAs(c: Candidate, status: Status, reviewer: string, now: real): Candidate {
    c.(status := status, reviewedAt := Some(now), reviewer := OrElse(reviewer, "agent"))
  }

  /** Accepting writes the rule and the link; drawn is the identifier the rule would get. */
  function AcceptedBy(t: Tables, id: string, reviewer: string, drawn: string, now: real)
    : (Tables, Result<string, Error>)
  {
    if id == "" then (t, Failure(IdRequired))
    else if id !in t.candidates then (t, Failure(NotFound))
    else
      var c := t.candidates[id];
      if c.status == Rejected then (t, Failure(AlreadyRejected))
      else if c.status == Accepted && LinkStands(t, c) then (t, Success(c.linkedRule))
      else if c.status.Other? then (t, Failure(InvalidStatus(c.status.name)))
      else
        var reviewed := ReviewedAs(c, Accepted, reviewer, now).(linkedRule := drawn);
        (Tables(t.candidates[id := reviewed], t.rules[drawn := NewRule(id, c, now)]), Success(drawn))
  }

  function WithReason(evidence: map<string, string>, reason: string): map<string, string> {
    if reason == "" then evidence else evidence["reject_reason" := reason]
  }

  function RejectedBy(t: Tables, id: string, reviewer: string, reason: string, now: real)
    : (Tables, Result<bool, Error>)
  {
    if id == "" then (t, Failure(IdRequired))
    else if id !in t.candidates then (t, Failure(NotFound))
    else
      var c := t.candidates[id];
      if c.status == Accepted then (t, Failure(AlreadyAccepted))
      else if c.status == Rejected then (t, Success(true))
      else if c.status.Other? then (t, Failure(InvalidStatus(c.status.name)))
      else
        var reviewed := ReviewedAs(c, Rejected, reviewer, now).(evidence := WithReason(c.evidence, reason));
        (t.(candidates := t.candidates[id := reviewed]), Success(true))
  }

  /******* Seeds *******/

  datatype Seed = Seed(
    id: string, title: string, ruleText: string, scope: string, severity: string, evidence: map<string, string>)

  datatype SeedAction = CreateSeed | UpdateSeed | SkipSeed

  /** The title takes no part in the comparison. */
  predicate Same(r: Rule, s: Seed) {
    r.ruleText == s.ruleText && r.scope == s.scope && r.severity == s.severity && r.evidence == s.evidence
  }

  function ActionFor(rules: map<string, Rule>, s: Seed): SeedAction {
    if s.id !in rules then CreateSeed else if Same(rules[s.id], s) then SkipSeed else UpdateSeed
  }

  function Seeded(rules: map<string, Rule>, s: Seed, now: real): map<string, Rule> {
    match ActionFor(rules, s)
    case CreateSeed => rules[s.id := Rule(s.title, s.ruleText, s.scope, s.severity, Active, "", s.evidence, now, now)]
    case UpdateSeed =>
      rules[s.id := rules[s.id].(title := s.title, ruleText := s.ruleText, scope := s.scope, severity := s.severity,
                                 evidence := s.evidence, updatedAt := now, status := Active)]
    case SkipSeed => rules
  }

  function SeededAll(rules: map<string, Rule>, seeds: seq<Seed>, now: real): map<string, Rule> {
    if seeds == [] then rules
    else Seeded(SeededAll(rules, seeds[..|seeds| - 1], now), seeds[|seeds| - 1], now)
  }

  /** How many seeds got an action. */
  function Tally(results: seq<(string, SeedAction)>, action: SeedAction): nat {
    if results == [] then 0
    else Tally(results[..|results| - 1], action) + if results[|results| - 1].1 == action then 1 else 0
  }

  lemma TallyGrows(results: seq<(string, SeedAction)>, id: string, done: SeedAction)
    ensures forall action :: Tally(results + [(id, done)], action) ==
                             Tally(results, action) + if done == action then 1 else 0
  {
    assert (results + [(id, done)])[..|results|] == results;
  }

  predicate DistinctSeeds(seeds: seq<Seed>) {
    forall i, j :: 0 <= i < j < |seeds| ==> seeds[i].id != seeds[j].id
  }

  /** Seeding touches no other rule, and leaves each seed's rule with its text, scope, severity and evidence. */
  lemma {:induction false} SeededRows(rules: map<string, Rule>, seeds: seq<Seed>, now: real, id: string)
    requires DistinctSeeds(seeds)
    ensures var after := SeededAll(rules, seeds, now);
            && ((forall s :: s in seeds ==> s.id != id) ==> (id in after <==> id in rules) && (id in rules ==> after[id] == rules[id]))
            && forall s :: s in seeds && s.id == id ==>
                 && id in after && Same(after[id], s)
                 && (id in rules && Same(rules[id], s) ==> after[id] == rules[id])
                 && (id !in rules || !Same(rules[id], s) ==>
                       after[id].title == s.title && after[id].status == Active && after[id].updatedAt == now)
                 && after[id].createdAt == (if id in rules then rules[id].createdAt else now)
                 && after[id].sourceCandidate == if id in rules then rules[id].sourceCandidate else ""
  {
    if seeds != [] {
      var n := |seeds| - 1;
      SeededRows(rules, seeds[..n], now, id);
      assert forall s :: s in seeds <==> s in seeds[..n] || s == seeds[n];
      if seeds[n].id == id {
        assert forall s :: s in seeds[..n] ==> s.id != id;
      }
    }
  }

  /** The next seed finds its row as it was before the seeding. */
  lemma SeedStep(rules: map<string, Rule>, seeds: seq<Seed>, i: nat, now: real)
    requires DistinctSeeds(seeds) && i < |seeds|
    ensures var before := SeededAll(rules, seeds[..i], now);
            && SeededAll(rules, seeds[..i + 1], now) == Seeded(before, seeds[i], now)
            && ActionFor(before, seeds[i]) == ActionFor(rules, seeds[i])
  {
    SeededRows(rules, seeds[..i], now, seeds[i].id);
    assert seeds[..i + 1][..i] == seeds[..i];
  }

  /** What is reported for a seed is what happens to its row: it is new, as it was, or updated. */
  lemma ActionsMean(rules: map<string, Rule>, seeds: seq<Seed>, now: real, s: Seed)
    requires DistinctSeeds(seeds) && s in seeds
    ensures var after := SeededAll(rules, seeds, now);
            && s.id in after
            && (ActionFor(rules, s) == CreateSeed <==> s.id !in rules)
            && (ActionFor(rules, s) == SkipSeed ==> s.id in rules && after[s.id] == rules[s.id])
            && (ActionFor(rules, s) == UpdateSeed ==>
                  && s.id in rules && !Same(rules[s.id], s) && Same(after[s.id], s) && after[s.id].title == s.title
                  && after[s.id].status == Active && after[s.id].updatedAt == now
                  && after[s.id].createdAt == rules[s.id].createdAt)
  {
    SeededRows(rules, seeds, now, s.id);
  }

  /** Seeding again skips every seed and changes nothing, whenever it is done. */
  lemma {:induction false} SeedingTwiceIsOnce(rules: map<string, Rule>, seeds: seq<Seed>, now: real, later: real)
    requires DistinctSeeds(seeds)
    ensures var after := SeededAll(rules, seeds, now);
            && (forall s :: s in seeds ==> ActionFor(after, s) == SkipSeed)
            && SeededAll(after, seeds, later) == after
  {
    var after := SeededAll(rules, seeds, now);
    forall s | s in seeds ensures ActionFor(after, s) == SkipSeed {
      SeededRows(rules, seeds, now, s.id);
    }
    SkippingChangesNothing(after, seeds, later);
  }

  lemma {:induction false} SkippingChangesNothing(rules: map<string, Rule>, seeds: seq<Seed>, now: real)
    requires forall s :: s in seeds ==> ActionFor(rules, s) == SkipSeed
    ensures SeededAll(rules, seeds, now) == rules
  {
    if seeds != [] {
      SkippingChangesNothing(rules, seeds[..|seeds| - 1], now);
    }
  }

  /******* The store *******/

  class RuleStore {
    var candidates: map<string, Candidate>
    var rules: map<string, Rule>

    constructor ()
      ensures State() == Tables(map[], map[])
    {
      candidates, rules := map[], map[];
    }

    function State(): Tables
      reads this
    {
      Tables(candidates, rules)
    }

    method CandidateCreate(id: string, form: Form, now: real) returns (r: Result<string, Error>)
      requires id !in candidates
      modifies this`candidates
      ensures (State(), r) == Created(old(State()), id, form, now)
      ensures r.Success? <==> Strip(form.title) != "" && Strip(form.ruleText) != ""
      ensures r.Failure? ==> r.error == if Strip(form.title) == "" then TitleRequired else TextRequired
      ensures r.Success? ==> id in candidates && Records(candidates[id], form, now)
    {
      if form.title == "" || Strip(form.title) == "" {
        return Failure(TitleRequired);
      }
      if form.ruleText == "" || Strip(form.ruleText) == "" {
        return Failure(TextRequired);
      }
      candidates := candidates[id := NewCandidate(form, now)];
      r := Success(id);
    }

    method CandidateAccept(id: string, reviewer: string, drawn: string, now: real) returns (r: Result<string, Error>)
      requires drawn !in rules
      modifies this
      ensures (State(), r) == AcceptedBy(old(State()), id, reviewer, drawn, now)
      ensures r.Success? && r.value == drawn && drawn in rules ==>
                && Reviewed(candidates[id], Accepted, reviewer, now) && candidates[id].linkedRule == drawn
                && rules[drawn].createdAt == now == rules[drawn].updatedAt
      ensures Refusal(old(candidates), id).Some? ==> r == Failure(Refusal(old(candidates), id).value)
    {
      if id == "" {
        return Failure(IdRequired);
      }
      if id !in candidates {
        return Failure(NotFound);
      }
      var c := candidates[id];
      if c.status == Rejected {
        return Failure(AlreadyRejected);
      }
      if c.status == Accepted {
        if c.linkedRule != "" && c.linkedRule in rules {
          return Success(c.linkedRule);
        }
      } else if c.status != Pending {
        return Failure(InvalidStatus(c.status.name));
      }
      rules := rules[drawn := NewRule(id, c, now)];
      candidates := candidates[id := ReviewedAs(c, Accepted, reviewer, now).(linkedRule := drawn)];
      r := Success(drawn);
    }

    method CandidateReject(id: string, reviewer: string, reason: string, now: real) returns (r: Result<bool, Error>)
      modifies this`candidates
      ensures (State(), r) == RejectedBy(old(State()), id, reviewer, reason, now)
      ensures r.Success? && old(candidates[id].status) == Pending ==> Reviewed(candidates[id], Rejected, reviewer, now)
      ensures Refusal(old(candidates), id).Some? ==> r == Failure(Refusal(old(candidates), id).value)
    {
      if id == "" {
        return Failure(IdRequired);
      }
      if id !in candidates {
        return Failure(NotFound);
      }
      var c := candidates[id];
      if c.status == Accepted {
        return Failure(AlreadyAccepted);
      }
      if c.status == Rejected {
        return Success(true);
      }
      if c.status != Pending {
        return Failure(InvalidStatus(c.status.name));
      }
      var evidence := c.evidence;
      if reason != "" {
        evidence := evidence["reject_reason" := reason];
      }
      candidates := candidates[id := ReviewedAs(c, Rejected, reviewer, now).(evidence := evidence)];
      r := Success(true);
    }

    /** The next seed of a run that began with rules0: its row is written unless the run is dry. */
    method SeedOne(seeds: seq<Seed>, i: nat, now: real, dryRun: bool, ghost rules0: map<string, Rule>)
      returns (action: SeedAction)
      requires DistinctSeeds(seeds) && i < |seeds|
      requires rules == if dryRun then rules0 else SeededAll(rules0, seeds[..i], now)
      modifies this`rules
      ensures action == ActionFor(rules0, seeds[i])
      ensures rules == if dryRun then rules0 else SeededAll(rules0, seeds[..i + 1], now)
    {
      var s := seeds[i];
      SeedStep(rules0, seeds, i, now);
      if s.id !in rules {
        if !dryRun {
          rules := rules[s.id := Rule(s.title, s.ruleText, s.scope, s.severity, Active, "", s.evidence, now, now)];
        }
        return CreateSeed;
      }
      if !Same(rules[s.id], s) {
        if !dryRun {
          rules := rules[s.id := rules[s.id].(title := s.title, ruleText := s.ruleText, scope := s.scope,
            severity := s.severity, evidence := s.evidence, updatedAt := now, status := Active)];
        }
        return UpdateSeed;
      }
      return SkipSeed;
    }

    /** A dry run reports the actions of a real one and changes nothing. */
    method SeedBootstrap(seeds: seq<Seed>, now: real, dryRun: bool)
      returns (results: seq<(string, SeedAction)>, created: nat, updated: nat, skipped: nat)
      requires DistinctSeeds(seeds)
      modifies this`rules
      ensures rules == if dryRun then old(rules) else SeededAll(old(rules), seeds, now)
      ensures |results| == |seeds| == created + updated + skipped
      ensures created == Tally(results, CreateSeed) && updated == Tally(results, UpdateSeed)
      ensures forall i :: 0 <= i < |seeds| ==> results[i] == (seeds[i].id, ActionFor(old(rules), seeds[i]))
    {
      results, created, updated, skipped := [], 0, 0, 0;
      for i := 0 to |seeds|
        invariant rules == if dryRun then old(rules) else SeededAll(old(rules), seeds[..i], now)
        invariant |results| == i == created + updated + skipped
        invariant created == Tally(results, CreateSeed) && updated == Tally(results, UpdateSeed)
        invariant forall k :: 0 <= k < i ==> results[k] == (seeds[k].id, ActionFor(old(rules), seeds[k]))
      {
        var action := SeedOne(seeds, i, now, dryRun, old(rules));
        TallyGrows(results, seeds[i].id, action);
        results := results + [(seeds[i].id, action)];
        match action
        case CreateSeed => created := created + 1;
        case UpdateSeed => updated := updated + 1;
        case SkipSeed => skipped := skipped + 1;
      }
      assert seeds[..|seeds|] == seeds;
    }
  }

  /******* Runs *******/

  /** One call, with the identifiers and times it would draw; Remove is a deletion by someone else. */
  datatype Act =
    | Create(id: string, form: Form, now: real)
    | Accept(id: string, reviewer: string, drawn: string, now: real)
    | Reject(id: string, reviewer: string, reason: string, now: real)
    | SeedRules(now: real)
    | Remove(rule: string)

  function Apply(t: Tables, a: Act, seeds: seq<Seed>): Tables {
    match a
    case Create(id, form, now) => Created(t, id, form, now).0
    case Accept(id, reviewer, drawn, now) => AcceptedBy(t, id, reviewer, drawn, now).0
    case Reject(id, reviewer, reason, now) => RejectedBy(t, id, reviewer, reason, now).0
    case SeedRules(now) => t.(rules := SeededAll(t.rules, seeds, now))
    case Remove(rule) => t.(rules := t.rules - {rule})
  }

  function Run(t: Tables, acts: seq<Act>, seeds: seq<Seed>): Tables
    decreases |acts|
  {
    if acts == [] then t else Run(Apply(t, acts[0], seeds), acts[1..], seeds)
  }

  /** Drawn identifiers are not empty, not in use and not a seed's. */
  predicate DrawsFresh(t: Tables, a: Act, seeds: seq<Seed>) {
    match a
    case Create(id, _, _) => id != "" && id !in t.candidates
    case Accept(_, _, drawn, _) =>
      && drawn != "" && drawn !in t.rules
      && (forall c :: c in t.candidates ==> t.candidates[c].linkedRule != drawn)
      && (forall s :: s in seeds ==> s.id != drawn)
    case _ => true
  }

  predicate RunDrawsFresh(t: Tables, acts: seq<Act>, seeds: seq<Seed>)
    decreases |acts|
  {
    acts == [] || (DrawsFresh(t, acts[0], seeds) && RunDrawsFresh(Apply(t, acts[0], seeds), acts[1..], seeds))
  }

  /** An accepted candidate links to the rule made from it; any rule made from a candidate is that link. */
  ghost predicate Linked(t: Tables, seeds: seq<Seed>) {
    && (forall c :: c in t.candidates ==> c != "" && LinkFits(t, c, seeds))
    && (forall r :: r in t.rules && t.rules[r].sourceCandidate != "" ==> RuleFits(t, r))
  }

  ghost predicate LinkFits(t: Tables, id: string, seeds: seq<Seed>)
    requires id in t.candidates
  {
    var c := t.candidates[id];
    match c.status
    case Accepted =>
      && c.linkedRule != "" && (forall s :: s in seeds ==> s.id != c.linkedRule)
      && (c.linkedRule in t.rules ==> t.rules[c.linkedRule].sourceCandidate == id)
    case Other(_) => false
    case _ => c.linkedRule == ""
  }

  ghost predicate RuleFits(t: Tables, r: string)
    requires r in t.rules
  {
    var c := t.rules[r].sourceCandidate;
    c in t.candidates && t.candidates[c].status == Accepted && t.candidates[c].linkedRule == r
  }

  lemma SeedingKeepsLinked(t: Tables, now: real, seeds: seq<Seed>)
    requires DistinctSeeds(seeds) && Linked(t, seeds)
    ensures Linked(Apply(t, SeedRules(now), seeds), seeds)
  {
    var u := Apply(t, SeedRules(now), seeds);
    forall id
      ensures id in t.rules ==> id in u.rules && u.rules[id].sourceCandidate == t.rules[id].sourceCandidate
      ensures id in u.rules && id !in t.rules ==>
                u.rules[id].sourceCandidate == "" && exists s :: s in seeds && s.id == id
    {
      SeededRows(t.rules, seeds, now, id);
      if s :| s in seeds && s.id == id {
        assert id in u.rules;
      }
    }
    forall c | c in u.candidates ensures c != "" && LinkFits(u, c, seeds) {
      assert LinkFits(t, c, seeds);
    }
    forall r | r in u.rules && u.rules[r].sourceCandidate != "" ensures RuleFits(u, r) {
      assert RuleFits(t, r);
    }
  }

  lemma ApplyKeepsLinked(t: Tables, a: Act, seeds: seq<Seed>)
    requires DistinctSeeds(seeds) && Linked(t, seeds) && DrawsFresh(t, a, seeds)
    ensures Linked(Apply(t, a, seeds), seeds)
  {
    if a.SeedRules? {
      SeedingKeepsLinked(t, a.now, seeds);
    } else {
      var u := Apply(t, a, seeds);
      forall c | c in u.candidates ensures c != "" && LinkFits(u, c, seeds) {
        assert c in t.candidates ==> LinkFits(t, c, seeds);
      }
      forall r | r in u.rules && u.rules[r].sourceCandidate != "" ensures RuleFits(u, r) {
        assert r in t.rules ==> RuleFits(t, r);
      }
    }
  }

  /** All runs keep every accepted candidate linked to at most one rule, the one made from it. */
  lemma {:induction false} RunsStayLinked(t: Tables, acts: seq<Act>, seeds: seq<Seed>)
    requires DistinctSeeds(seeds) && Linked(t, seeds) && RunDrawsFresh(t, acts, seeds)
    ensures Linked(Run(t, acts, seeds), seeds)
    decreases |acts|
  {
    if acts != [] {
      ApplyKeepsLinked(t, acts[0], seeds);
      RunsStayLinked(Apply(t, acts[0], seeds), acts[1..], seeds);
    }
  }

  /** No candidate ever has two rules. */
  lemma OneRulePerCandidate(acts: seq<Act>, seeds: seq<Seed>, r: string, q: string)
    requires DistinctSeeds(seeds) && RunDrawsFresh(Tables(map[], map[]), acts, seeds)
    ensures var t := Run(Tables(map[], map[]), acts, seeds);
            r in t.rules && q in t.rules && t.rules[r].sourceCandidate == t.rules[q].sourceCandidate != "" ==> r == q
  {
    var t := Run(Tables(map[], map[]), acts, seeds);
    RunsStayLinked(Tables(map[], map[]), acts, seeds);
    assert r in t.rules && t.rules[r].sourceCandidate != "" ==> RuleFits(t, r);
    assert q in t.rules && t.rules[q].sourceCandidate != "" ==> RuleFits(t, q);
  }

  /** Title and text are stripped and not empty, the severity is one of the four, the confidence between 0 and 1. */
  predicate Tidy(c: Candidate) {
    && c.title != "" && Strip(c.title) == c.title
    && c.ruleText != "" && Strip(c.ruleText) == c.ruleText
    && c.severity in SEVERITIES && 0.0 <= c.confidence <= 1.0 && c.source != ""
  }

  lemma CreatedIsTidy(form: Form, now: real)
    requires Strip(form.title) != "" && Strip(form.ruleText) != ""
    ensures Tidy(NewCandidate(form, now))
  {
    StripTwice(form.title);
    StripTwice(form.ruleText);
  }

  predicate AllTidy(t: Tables) {
    forall c :: c in t.candidates ==> Tidy(t.candidates[c])
  }

  lemma StepStaysTidy(t: Tables, a: Act, seeds: seq<Seed>)
    requires AllTidy(t)
    ensures AllTidy(Apply(t, a, seeds))
  {
    match a
    case Create(id, form, now) =>
      if Created(t, id, form, now).1.Success? {
        CreatedIsTidy(form, now);
      }
    case _ => ReviewStaysTidy(t, a, seeds);
  }

  /** What a form has given a row, a review does not touch. */
  predicate SameForm(c: Candidate, d: Candidate) {
    && (d.title, d.ruleText, d.severity) == (c.title, c.ruleText, c.severity)
    && (d.source, d.confidence) == (c.source, c.confidence)
  }

  lemma ReviewStaysTidy(t: Tables, a: Act, seeds: seq<Seed>)
    requires AllTidy(t) && !a.Create?
    ensures AllTidy(Apply(t, a, seeds))
  {
    var u := Apply(t, a, seeds);
    forall c | c in u.candidates ensures Tidy(u.candidates[c]) {
      ReviewKeepsForm(t, a, seeds, c);
    }
  }

  lemma ReviewKeepsForm(t: Tables, a: Act, seeds: seq<Seed>, c: string)
    requires !a.Create? && c in Apply(t, a, seeds).candidates
    ensures c in t.candidates && SameForm(t.candidates[c], Apply(t, a, seeds).candidates[c])
  {
  }

  /** Over all runs every candidate stays tidy, whatever the forms said. */
  lemma {:induction false} RunsStayTidy(t: Tables, acts: seq<Act>, seeds: seq<Seed>)
    requires AllTidy(t)
    ensures AllTidy(Run(t, acts, seeds))
    decreases |acts|
  {
    if acts != [] {
      StepStaysTidy(t, acts[0], seeds);
      RunsStayTidy(Apply(t, acts[0], seeds), acts[1..], seeds);
    }
  }

  /** What a candidate's row may become: the same row, or from pending a reviewed one with the same proposal. */
  predicate Evolves(c: Candidate, d: Candidate) {
    && d.(status := c.status, reviewedAt := c.reviewedAt, reviewer := c.reviewer, linkedRule := c.linkedRule,
          evidence := c.evidence) == c
    && (d.status == c.status || (c.status == Pending && d.status in {Accepted, Rejected}))
    && (c.status == Pending && d.status == Pending ==> d == c)
    && (c.status == Rejected ==> d == c)
    && (c.evidence != d.evidence ==> d.status == Rejected)
  }

  /** Over a run no candidate is lost, and its status moves at most once, out of pending. */
  lemma {:induction false} StatusMovesOnce(t: Tables, acts: seq<Act>, seeds: seq<Seed>, id: string)
    requires id in t.candidates && t.candidates[id].status in {Pending, Accepted, Rejected}
    requires RunDrawsFresh(t, acts, seeds)
    ensures var u := Run(t, acts, seeds); id in u.candidates && Evolves(t.candidates[id], u.candidates[id])
    decreases |acts|
  {
    if acts != [] {
      StepEvolves(t, acts[0], seeds, id);
      StatusMovesOnce(Apply(t, acts[0], seeds), acts[1..], seeds, id);
    }
  }

  lemma StepEvolves(t: Tables, a: Act, seeds: seq<Seed>, id: string)
    requires id in t.candidates && t.candidates[id].status in {Pending, Accepted, Rejected}
    requires DrawsFresh(t, a, seeds)
    ensures var u := Apply(t, a, seeds); id in u.candidates && Evolves(t.candidates[id], u.candidates[id])
  {
  }

  /**
   Accepting makes a new rule exactly when the candidate is pending or its rule was removed; the
   rule is active and carries what the candidate proposed.
   */
  lemma AcceptRebuilds(t: Tables, id: string, reviewer: string, drawn: string, now: real, seeds: seq<Seed>)
    requires Linked(t, seeds) && DrawsFresh(t, Accept(id, reviewer, drawn, now), seeds)
    ensures var (u, r) := AcceptedBy(t, id, reviewer, drawn, now);
            && (drawn in u.rules <==>
                  id in t.candidates && (t.candidates[id].status == Pending
                  || (t.candidates[id].status == Accepted && t.candidates[id].linkedRule !in t.rules)))
            && (r.Success? ==> u.candidates[id].status == Accepted && u.candidates[id].linkedRule == r.value
                               && r.value in u.rules && u.rules[r.value].sourceCandidate == id)
            && (r.Success? && r.value == drawn ==>
                  var c, q := t.candidates[id], u.rules[drawn];
                  && (q.title, q.ruleText, q.scope) == (c.title, c.ruleText, c.scope)
                  && (q.severity, q.evidence, q.status) == (c.severity, c.evidence, Active))
            && (r.Failure? ==> u == t)
  {
    assert id in t.candidates ==> LinkFits(t, id, seeds);
  }

  predicate Keeps(t: Tables, u: Tables, id: string)
    requires id in t.candidates && t.candidates[id].linkedRule in t.rules
  {
    var r := t.candidates[id].linkedRule;
    id in u.candidates && u.candidates[id] == t.candidates[id] && r in u.rules && u.rules[r] == t.rules[r]
  }

  lemma StepKeepsLink(t: Tables, a: Act, seeds: seq<Seed>, id: string)
    requires DistinctSeeds(seeds) && Linked(t, seeds) && DrawsFresh(t, a, seeds)
    requires id in t.candidates && t.candidates[id].status == Accepted && t.candidates[id].linkedRule in t.rules
    requires a != Remove(t.candidates[id].linkedRule)
    ensures Keeps(t, Apply(t, a, seeds), id)
  {
    assert LinkFits(t, id, seeds);
    if a.SeedRules? {
      SeededRows(t.rules, seeds, a.now, t.candidates[id].linkedRule);
    }
  }

  /** While nobody removes its rule, an accepted candidate and its rule keep their rows. */
  lemma {:induction false} LinkStays(t: Tables, acts: seq<Act>, seeds: seq<Seed>, id: string)
    requires DistinctSeeds(seeds) && Linked(t, seeds) && RunDrawsFresh(t, acts, seeds)
    requires id in t.candidates && t.candidates[id].status == Accepted && t.candidates[id].linkedRule in t.rules
    requires Remove(t.candidates[id].linkedRule) !in acts
    ensures Keeps(t, Run(t, acts, seeds), id)
    decreases |acts|
  {
    if acts != [] {
      StepKeepsLink(t, acts[0], seeds, id);
      ApplyKeepsLinked(t, acts[0], seeds);
      LinkStays(Apply(t, acts[0], seeds), acts[1..], seeds, id);
    }
  }

  /** The rule of every accepted candidate is there. */
  ghost predicate RulesStand(t: Tables) {
    forall c :: c in t.candidates && t.candidates[c].status == Accepted ==> t.candidates[c].linkedRule in t.rules
  }

  lemma ApplyKeepsRules(t: Tables, a: Act, seeds: seq<Seed>)
    requires DistinctSeeds(seeds) && Linked(t, seeds) && DrawsFresh(t, a, seeds) && RulesStand(t) && !a.Remove?
    ensures RulesStand(Apply(t, a, seeds))
  {
    var u := Apply(t, a, seeds);
    forall c | c in u.candidates && u.candidates[c].status == Accepted ensures u.candidates[c].linkedRule in u.rules {
      if c in t.candidates && t.candidates[c].status == Accepted {
        StepKeepsLink(t, a, seeds, c);
      }
    }
  }

  /** As long as nobody removes a rule, every accepted candidate has its rule. */
  lemma {:induction false} AcceptedHaveRules(t: Tables, acts: seq<Act>, seeds: seq<Seed>)
    requires DistinctSeeds(seeds) && Linked(t, seeds) && RunDrawsFresh(t, acts, seeds)
    requires RulesStand(t) && forall a :: a in acts ==> !a.Remove?
    ensures RulesStand(Run(t, acts, seeds))
    decreases |acts|
  {
    if acts != [] {
      ApplyKeepsRules(t, acts[0], seeds);
      ApplyKeepsLinked(t, acts[0], seeds);
      AcceptedHaveRules(Apply(t, acts[0], seeds), acts[1..], seeds);
    }
  }

  /**
   Any time after a successful accept, unless someone has removed the rule, a second accept
   returns the same rule and changes nothing, and a reject is refused.
   */
  lemma AcceptIsFinal(t: Tables, first: Act, acts: seq<Act>, seeds: seq<Seed>, again: Act)
    requires DistinctSeeds(seeds) && Linked(t, seeds) && first.Accept? && RunDrawsFresh(t, [first] + acts, seeds)
    requires var r := AcceptedBy(t, first.id, first.reviewer, first.drawn, first.now).1;
             r.Success? && Remove(r.value) !in acts
    ensures var r, u := AcceptedBy(t, first.id, first.reviewer, first.drawn, first.now).1,
                        Run(t, [first] + acts, seeds);
            && (again.Accept? && again.id == first.id ==>
                  AcceptedBy(u, again.id, again.reviewer, again.drawn, again.now) == (u, r))
            && (again.Reject? && again.id == first.id ==>
                  RejectedBy(u, again.id, again.reviewer, again.reason, again.now) == (u, Failure(AlreadyAccepted)))
  {
    assert ([first] + acts)[1..] == acts;
    ApplyKeepsLinked(t, first, seeds);
    AcceptRebuilds(t, first.id, first.reviewer, first.drawn, first.now, seeds);
    assert LinkFits(Apply(t, first, seeds), first.id, seeds);
    LinkStays(Apply(t, first, seeds), acts, seeds, first.id);
  }

  /**
   Any time after a successful reject of a pending candidate its reason is on record, a second
   reject changes nothing, not even the reason, and an accept is refused.
   */
  lemma RejectIsFinal(t: Tables, first: Act, acts: seq<Act>, seeds: seq<Seed>, again: Act)
    requires first.Reject? && RunDrawsFresh(t, [first] + acts, seeds)
    requires RejectedBy(t, first.id, first.reviewer, first.reason, first.now).1.Success?
    ensures var u := Run(t, [first] + acts, seeds);
            && first.id in t.candidates && first.id in u.candidates && u.candidates[first.id].status == Rejected
            && (t.candidates[first.id].status == Pending ==>
                  u.candidates[first.id].evidence ==
                  if first.reason == "" then t.candidates[first.id].evidence
                  else t.candidates[first.id].evidence["reject_reason" := first.reason])
            && (again.Reject? && again.id == first.id ==>
                  RejectedBy(u, again.id, again.reviewer, again.reason, again.now) == (u, Success(true)))
            && (again.Accept? && again.id == first.id ==>
                  AcceptedBy(u, again.id, again.reviewer, again.drawn, again.now) == (u, Failure(AlreadyRejected)))
  {
    assert ([first] + acts)[1..] == acts;
    StatusMovesOnce(Apply(t, first, seeds), acts, seeds, first.id);
  }
}

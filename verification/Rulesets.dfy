/** The branch ruleset: the independent readback evaluator, the preflight over the
    check runs of one pull request, and the eleven required names. */
module Rulesets {
  import opened Outcomes
  import opened PyText
  import opened Tally

  const REPO := "eh3aneba/maritime-claims-platform"
  const RULESET_NAME := "Protect main"
  const RULESET_ID := 20842512

  /** The four contexts required before the change. */
  const STARTING: seq<string> :=
    ["Backend tests", "PostgreSQL migration chain", "Frontend typecheck and build", "Docker Compose validation"]

  /** The seven added contexts in string order. */
  const ADDED: seq<string> :=
    ["Container image vulnerability scan", "Operational performance gate", "PostgreSQL concurrency gate",
     "Production dependency audit and SBOM", "Production environment policy", "Scoped CI gate",
     "Secret history scan"]

  const ORIGINAL: set<string> := Items(STARTING)

  const EXPECTED: set<string> := ORIGINAL + Items(ADDED)

  // ------------------------------------------------------------------
  // Rulesets
  // ------------------------------------------------------------------

  /** A required check and whatever other fields the server keeps with it. */
  datatype Check = Check(context: string, other: string)

  datatype Rule =
    | StatusChecks(strict: bool, enforceOnCreate: bool, required: seq<Check>, other: string)
    | PullRequest(mergeMethods: seq<string>, resolveThreads: bool, extraApproval: bool, other: string)
    | LinearHistory | Deletion | NonFastForward
    | OtherRule(text: string)

  datatype Listing = Listing(id: int, name: string, source: string, sourceType: string)

  datatype Ruleset = Ruleset(
    id: int, name: string, source: string, sourceType: string, target: string, enforcement: string,
    bypass: seq<string>, includeRefs: seq<string>, excludeRefs: seq<string>, rules: seq<Rule>,
    updatedAt: string, other: string)

  datatype Readback = Readback(
    rulesetId: int, requiredCount: nat, missing: set<string>, unexpectedCount: nat, safe: bool, complete: bool)

  predicate IsStatusRule(r: Rule) { r.StatusChecks? }

  predicate IsPullRule(r: Rule) { r.PullRequest? }

  function StatusRules(rules: seq<Rule>): seq<Rule> {
    Filter(rules, IsStatusRule)
  }

  function PullRules(rules: seq<Rule>): seq<Rule> {
    Filter(rules, IsPullRule)
  }

  function Contexts(checks: seq<Check>): (r: seq<string>)
    ensures |r| == |checks| && forall i :: 0 <= i < |r| ==> r[i] == checks[i].context
  {
    seq(|checks|, i requires 0 <= i < |checks| => checks[i].context)
  }

  function OurName(repo: string): Listing -> bool {
    (l: Listing) => l.name == RULESET_NAME && l.source == repo && l.sourceType == "Repository"
  }

  function Protecting(listed: seq<Listing>, repo: string): seq<Listing> {
    Filter(listed, OurName(repo))
  }

  predicate RepoChar(c: char) {
    IsAlnum(c) || c in {'_', '.', '-'}
  }

  /** Owner, one slash, name. */
  predicate RepoShape(repo: string) {
    exists k :: 0 < k < |repo| - 1 && IsSlashed(repo, k)
  }

  predicate IsSlashed(repo: string, k: nat) {
    k < |repo| && repo[k] == '/' && forall i :: 0 <= i < |repo| && i != k ==> RepoChar(repo[i])
  }

  lemma OurRepoIsShaped()
    ensures RepoShape(REPO)
  {
    assert IsSlashed(REPO, 8);
  }

  /** A nonempty text over letters, digits, underscore, dot and hyphen. */
  ghost predicate IsWord(s: string) {
    s != "" && forall i :: 0 <= i < |s| ==> s[i] == '_' || s[i] == '.' || s[i] == '-' || ListedAlnum(s[i])
  }

  lemma WordChars(s: string)
    ensures IsWord(s) <==> s != "" && forall i :: 0 <= i < |s| ==> RepoChar(s[i])
  {
    forall i | 0 <= i < |s|
      ensures RepoChar(s[i]) <==> s[i] == '_' || s[i] == '.' || s[i] == '-' || ListedAlnum(s[i])
    {
      AlnumListed(s[i]);
    }
  }

  /** A repository name is two words around one slash. */
  lemma RepoIsTwoWords(repo: string)
    ensures RepoShape(repo) <==> exists owner, name :: IsWord(owner) && IsWord(name) && repo == owner + "/" + name
  {
    hide RepoChar, IsWord;
    if RepoShape(repo) {
      var k :| 0 < k < |repo| - 1 && IsSlashed(repo, k);
      WordChars(repo[..k]);
      WordChars(repo[k + 1..]);
      assert repo == repo[..k] + "/" + repo[k + 1..];
    }
    if owner, name :| IsWord(owner) && IsWord(name) && repo == owner + "/" + name {
      WordChars(owner);
      WordChars(name);
      assert IsSlashed(repo, |owner|);
    }
  }

  /** One Protect main ruleset, one status rule and one pull-request rule. */
  predicate WellFormed(listed: seq<Listing>, d: Ruleset, repo: string) {
    && RepoShape(repo) && |Protecting(listed, repo)| == 1
    && d.id == Protecting(listed, repo)[0].id && d.name == RULESET_NAME
    && |StatusRules(d.rules)| == 1 && |PullRules(d.rules)| == 1
  }

  /** The safety properties, the last of which is that no context repeats. */
  predicate Safe(d: Ruleset, repo: string)
    requires |StatusRules(d.rules)| == 1 && |PullRules(d.rules)| == 1
    requires StatusRules(d.rules)[0].StatusChecks? && PullRules(d.rules)[0].PullRequest?
  {
    var checks, prs := StatusRules(d.rules)[0], PullRules(d.rules)[0];
    && d.enforcement == "active" && d.source == repo && d.sourceType == "Repository"
    && d.includeRefs == ["~DEFAULT_BRANCH"] && d.excludeRefs == [] && d.target == "branch"
    && checks.strict && checks.enforceOnCreate && d.bypass == []
    && prs.mergeMethods == ["squash"] && prs.resolveThreads && prs.extraApproval
    && LinearHistory in d.rules && Deletion in d.rules && NonFastForward in d.rules
    && |Contexts(checks.required)| == |Items(Contexts(checks.required))|
  }

  lemma RuleKinds(rules: seq<Rule>)
    ensures forall i :: 0 <= i < |StatusRules(rules)| ==> StatusRules(rules)[i].StatusChecks?
    ensures forall i :: 0 <= i < |PullRules(rules)| ==> PullRules(rules)[i].PullRequest?
  {
    forall i | 0 <= i < |StatusRules(rules)| ensures StatusRules(rules)[i].StatusChecks? {
      assert IsStatusRule(StatusRules(rules)[i]);
    }
    forall i | 0 <= i < |PullRules(rules)| ensures PullRules(rules)[i].PullRequest? {
      assert IsPullRule(PullRules(rules)[i]);
    }
  }

  /** The independent evaluator. */
  function Evaluate(listed: seq<Listing>, d: Ruleset, repo: string): Result<Readback> {
    if !WellFormed(listed, d, repo) then Refused
    else
      RuleKinds(d.rules);
      var contexts := Contexts(StatusRules(d.rules)[0].required);
      var actual := Items(contexts);
      var missing, unexpected := EXPECTED - actual, |actual - EXPECTED|;
      var safe := Safe(d, repo);
      Ok(Readback(d.id, |contexts|, missing, unexpected, safe, missing == {} && unexpected == 0 && safe))
  }

  // ------------------------------------------------------------------
  // What a readback means, rule by rule
  // ------------------------------------------------------------------

  ghost predicate SoleListing(listed: seq<Listing>, k: int, repo: string) {
    && 0 <= k < |listed|
    && forall i :: 0 <= i < |listed| ==>
         (listed[i].name == "Protect main" && listed[i].source == repo && listed[i].sourceType == "Repository"
          <==> i == k)
  }

  ghost predicate SoleStatus(rules: seq<Rule>, s: int) {
    0 <= s < |rules| && forall i :: 0 <= i < |rules| ==> (rules[i].StatusChecks? <==> i == s)
  }

  ghost predicate SolePull(rules: seq<Rule>, p: int) {
    0 <= p < |rules| && forall i :: 0 <= i < |rules| ==> (rules[i].PullRequest? <==> i == p)
  }

  /** One listed ruleset of ours, its detail, one status rule and one pull-request rule. */
  ghost predicate Identified(listed: seq<Listing>, d: Ruleset, repo: string, s: int, p: int) {
    && RepoShape(repo) && d.name == "Protect main"
    && (exists k :: SoleListing(listed, k, repo) && d.id == listed[k].id)
    && SoleStatus(d.rules, s) && SolePull(d.rules, p)
  }

  ghost predicate Secured(d: Ruleset, repo: string, s: int, p: int)
    requires SoleStatus(d.rules, s) && SolePull(d.rules, p)
  {
    && d.enforcement == "active" && d.target == "branch" && d.source == repo && d.sourceType == "Repository"
    && |d.bypass| == 0 && |d.excludeRefs| == 0 && |d.includeRefs| == 1 && d.includeRefs[0] == "~DEFAULT_BRANCH"
    && d.rules[s].strict && d.rules[s].enforceOnCreate
    && d.rules[p].resolveThreads && d.rules[p].extraApproval
    && |d.rules[p].mergeMethods| == 1 && d.rules[p].mergeMethods[0] == "squash"
    && (exists i :: 0 <= i < |d.rules| && d.rules[i].LinearHistory?)
    && (exists i :: 0 <= i < |d.rules| && d.rules[i].Deletion?)
    && (exists i :: 0 <= i < |d.rules| && d.rules[i].NonFastForward?)
    && (forall i, j :: 0 <= i < j < |d.rules[s].required| ==>
          d.rules[s].required[i].context != d.rules[s].required[j].context)
  }

  ghost predicate Requires(checks: seq<Check>, context: string) {
    exists i :: 0 <= i < |checks| && checks[i].context == context
  }

  lemma ProtectingIsSole(listed: seq<Listing>, repo: string)
    ensures |Protecting(listed, repo)| == 1 ==> exists k :: SoleListing(listed, k, repo)
    ensures forall k :: SoleListing(listed, k, repo) ==> Protecting(listed, repo) == [listed[k]]
  {
    FilterSole(listed, OurName(repo));
    hide Filter;
    forall k ensures SoleListing(listed, k, repo) <==> Sole(listed, k, OurName(repo)) {
      forall i | 0 <= i < |listed|
        ensures OurName(repo)(listed[i])
                <==> && listed[i].name == "Protect main" && listed[i].source == repo
                     && listed[i].sourceType == "Repository"
      {
      }
    }
  }

  lemma RulesAreSole(rules: seq<Rule>)
    ensures |StatusRules(rules)| == 1 ==> exists s :: SoleStatus(rules, s)
    ensures forall s :: SoleStatus(rules, s) ==> StatusRules(rules) == [rules[s]]
    ensures |PullRules(rules)| == 1 ==> exists p :: SolePull(rules, p)
    ensures forall p :: SolePull(rules, p) ==> PullRules(rules) == [rules[p]]
  {
    FilterSole(rules, IsStatusRule);
    FilterSole(rules, IsPullRule);
    hide Filter;
    forall k ensures SoleStatus(rules, k) <==> Sole(rules, k, IsStatusRule) {
      assert forall i :: 0 <= i < |rules| ==> (IsStatusRule(rules[i]) <==> rules[i].StatusChecks?);
    }
    forall k ensures SolePull(rules, k) <==> Sole(rules, k, IsPullRule) {
      assert forall i :: 0 <= i < |rules| ==> (IsPullRule(rules[i]) <==> rules[i].PullRequest?);
    }
  }

  /** The evaluator answers exactly for an identified ruleset. */
  lemma AnswersIdentified(listed: seq<Listing>, d: Ruleset, repo: string)
    ensures WellFormed(listed, d, repo) <==> exists s, p :: Identified(listed, d, repo, s, p)
  {
    ProtectingIsSole(listed, repo);
    RulesAreSole(d.rules);
    hide Protecting, StatusRules, PullRules, RepoShape, SoleListing, SoleStatus, SolePull;
    if WellFormed(listed, d, repo) {
      var k :| SoleListing(listed, k, repo);
      var s :| SoleStatus(d.rules, s);
      var p :| SolePull(d.rules, p);
      assert Identified(listed, d, repo, s, p);
    }
  }

  lemma SafeIsSecured(d: Ruleset, repo: string, s: int, p: int)
    requires SoleStatus(d.rules, s) && SolePull(d.rules, p)
    ensures StatusRules(d.rules) == [d.rules[s]] && PullRules(d.rules) == [d.rules[p]]
    ensures Safe(d, repo) <==> Secured(d, repo, s, p)
  {
    RulesAreSole(d.rules);
    var names := Contexts(d.rules[s].required);
    DistinctBySize(names);
    assert Items(names) == set x | x in names;
    assert Distinct(names) <==> forall i, j :: 0 <= i < j < |d.rules[s].required| ==>
                                  d.rules[s].required[i].context != d.rules[s].required[j].context;
    PropertiesAgree(d);
    hide StatusRules, PullRules, Contexts, Items, Distinct, SoleStatus, SolePull;
  }

  lemma PropertiesAgree(d: Ruleset)
    ensures d.includeRefs == ["~DEFAULT_BRANCH"] <==> |d.includeRefs| == 1 && d.includeRefs[0] == "~DEFAULT_BRANCH"
    ensures forall r: seq<string> :: r == ["squash"] <==> |r| == 1 && r[0] == "squash"
    ensures LinearHistory in d.rules <==> exists i :: 0 <= i < |d.rules| && d.rules[i].LinearHistory?
    ensures Deletion in d.rules <==> exists i :: 0 <= i < |d.rules| && d.rules[i].Deletion?
    ensures NonFastForward in d.rules <==> exists i :: 0 <= i < |d.rules| && d.rules[i].NonFastForward?
  {
  }

  /** The readback of a ruleset: the counts and the missing names are those of its
      one status rule, safe is every property, and complete means that exactly the
      eleven names are required. */
  ghost predicate Reads(r: Readback, d: Ruleset, repo: string, s: int, p: int)
    requires SoleStatus(d.rules, s) && SolePull(d.rules, p)
  {
    var checks := d.rules[s].required;
    && r.rulesetId == d.id && r.requiredCount == |checks|
    && (forall x :: x in r.missing <==> x in EXPECTED && !Requires(checks, x))
    && r.unexpectedCount == |set c | c in checks && c.context !in EXPECTED :: c.context|
    && (r.safe <==> Secured(d, repo, s, p))
    && (r.complete <==> Secured(d, repo, s, p) && forall x :: Requires(checks, x) <==> x in EXPECTED)
  }

  lemma EvaluateAt(listed: seq<Listing>, d: Ruleset, repo: string, checks: seq<Check>)
    requires WellFormed(listed, d, repo) && StatusRules(d.rules)[0].StatusChecks?
    requires StatusRules(d.rules)[0].required == checks && PullRules(d.rules)[0].PullRequest?
    ensures var actual, safe := Items(Contexts(checks)), Safe(d, repo);
            Evaluate(listed, d, repo)
            == Ok(Readback(d.id, |checks|, EXPECTED - actual, |actual - EXPECTED|, safe,
                           EXPECTED - actual == {} && |actual - EXPECTED| == 0 && safe))
  {
    hide WellFormed, Safe, StatusRules, PullRules, Items, EXPECTED;
  }

  lemma ReadbackAt(listed: seq<Listing>, d: Ruleset, repo: string, s: int, p: int)
    requires WellFormed(listed, d, repo) && SoleStatus(d.rules, s) && SolePull(d.rules, p)
    ensures Evaluate(listed, d, repo).Ok? && Reads(Evaluate(listed, d, repo).value, d, repo, s, p)
  {
    assert d.rules[s].StatusChecks? && d.rules[p].PullRequest?;
    hide *;
    SafeIsSecured(d, repo, s, p);
    EvaluateAt(listed, d, repo, d.rules[s].required);
    ReadsFrom(d, repo, s, p);
  }

  lemma ReadsFrom(d: Ruleset, repo: string, s: int, p: int)
    requires SoleStatus(d.rules, s) && SolePull(d.rules, p)
    ensures var checks, secured := d.rules[s].required, Secured(d, repo, s, p);
            var actual := Items(Contexts(checks));
            Reads(Readback(d.id, |checks|, EXPECTED - actual, |actual - EXPECTED|, secured,
                           EXPECTED - actual == {} && |actual - EXPECTED| == 0 && secured), d, repo, s, p)
  {
    NamesOfChecks(d.rules[s].required);
    hide Secured, Contexts, Items, EXPECTED, Requires, SoleStatus, SolePull;
  }

  lemma ReadbackMeans(listed: seq<Listing>, d: Ruleset, repo: string)
    ensures Evaluate(listed, d, repo).Ok? <==> exists s, p :: Identified(listed, d, repo, s, p)
    ensures forall s, p :: Identified(listed, d, repo, s, p) ==>
              Evaluate(listed, d, repo).Ok? && Reads(Evaluate(listed, d, repo).value, d, repo, s, p)
  {
    AnswersIdentified(listed, d, repo);
    hide Reads, WellFormed, Safe, EXPECTED;
    forall s, p | Identified(listed, d, repo, s, p)
      ensures Evaluate(listed, d, repo).Ok? && Reads(Evaluate(listed, d, repo).value, d, repo, s, p)
    {
      ReadbackAt(listed, d, repo, s, p);
    }
  }

  lemma NamesOfChecks(checks: seq<Check>)
    ensures forall x :: x in Items(Contexts(checks)) <==> Requires(checks, x)
    ensures Items(Contexts(checks)) - EXPECTED == set c | c in checks && c.context !in EXPECTED :: c.context
    ensures EXPECTED - Items(Contexts(checks)) == {} && |Items(Contexts(checks)) - EXPECTED| == 0
            <==> forall x :: Requires(checks, x) <==> x in EXPECTED
  {
    hide EXPECTED;
    var names := Contexts(checks);
    forall x ensures x in names <==> Requires(checks, x) {
      if x in names {
        var i :| 0 <= i < |names| && names[i] == x;
        assert checks[i].context == x;
      }
      if i :| 0 <= i < |checks| && checks[i].context == x {
        assert names[i] == x;
      }
    }
    var extra := Items(names) - EXPECTED;
    assert forall c :: c in checks ==> Requires(checks, c.context);
    forall x ensures x in extra <==> x in set c | c in checks && c.context !in EXPECTED :: c.context {
      if x in extra {
        var i :| 0 <= i < |checks| && checks[i].context == x;
        assert checks[i] in checks;
      }
    }
    assert |extra| == 0 <==> extra == {};
  }

  // ------------------------------------------------------------------
  // The preflight over check runs
  // ------------------------------------------------------------------

  datatype PullState = PullState(
    number: int, isOpen: bool, headSha: string, headRepo: string, headRef: string,
    baseRef: string, baseRepo: string, baseSha: string, draft: bool, mergeable: bool, mergeableState: string)

  datatype CheckRun = CheckRun(
    id: int, name: string, headSha: string, app: string, status: string, conclusion: string)

  datatype Outcome = Missing | Ambiguous | Pass(id: int) | NotPass(id: int)

  datatype CheckRecord = CheckRecord(repository: string, outcomes: map<string, Outcome>, present: nat, allGreen: bool)

  function HasName(name: string): CheckRun -> bool {
    (run: CheckRun) => run.name == name
  }

  function RunsNamed(runs: seq<CheckRun>, name: string): seq<CheckRun> {
    Filter(runs, HasName(name))
  }

  function OutcomeOf(matches: seq<CheckRun>): Outcome {
    if matches == [] then Missing
    else if |matches| != 1 then Ambiguous
    else if matches[0].status == "completed" && matches[0].conclusion == "success" then Pass(matches[0].id)
    else NotPass(matches[0].id)
  }

  predicate IsCandidate(pr: PullState, number: int, sha: string, repo: string) {
    && RepoShape(repo) && IsHex(sha, 40) && number > 0
    && pr.number == number && pr.isOpen && pr.headSha == sha && pr.baseRef == "main"
    && pr.baseRepo == repo && pr.headRepo == repo
  }

  /** A run under an expected name must be a numbered run of this head by the
      expected application. */
  predicate RunOk(run: CheckRun, sha: string) {
    run.name in EXPECTED ==> run.id > 0 && run.headSha == sha && run.app == "github-actions"
  }

  function OutcomesOf(runs: seq<CheckRun>): map<string, Outcome> {
    map name | name in EXPECTED :: OutcomeOf(RunsNamed(runs, name))
  }

  /** What the preflight reports about a list of runs. */
  function RecordFor(runs: seq<CheckRun>, repo: string): CheckRecord {
    var outcomes := OutcomesOf(runs);
    CheckRecord(
      repo, outcomes,
      |set name | name in EXPECTED && (outcomes[name].Pass? || outcomes[name].NotPass?)|,
      forall name :: name in EXPECTED ==> outcomes[name].Pass?)
  }

  // ------------------------------------------------------------------
  // What a record means
  // ------------------------------------------------------------------

  lemma RunsPush(runs: seq<CheckRun>, i: nat, name: string)
    requires i < |runs|
    ensures RunsNamed(runs[..i + 1], name)
         == RunsNamed(runs[..i], name) + if runs[i].name == name then [runs[i]] else []
  {
    FilterPush(runs, i, HasName(name));
  }

  /** The only run under its name. */
  predicate IsSole(runs: seq<CheckRun>, name: string, i: int) {
    && 0 <= i < |runs| && runs[i].name == name
    && forall j :: 0 <= j < |runs| && runs[j].name == name ==> j == i
  }

  predicate Succeeded(run: CheckRun) {
    run.status == "completed" && run.conclusion == "success"
  }

  predicate Absent(runs: seq<CheckRun>, name: string) {
    forall j :: 0 <= j < |runs| ==> runs[j].name != name
  }

  lemma SolePush(init: seq<CheckRun>, run: CheckRun, name: string)
    ensures Absent(init + [run], name) <==> Absent(init, name) && run.name != name
    ensures IsSole(init + [run], name, |init|) <==> Absent(init, name) && run.name == name
    ensures forall i :: i != |init| ==> (IsSole(init + [run], name, i) <==> IsSole(init, name, i) && run.name != name)
  {
    var runs := init + [run];
    assert runs[|init|] == run && forall j :: 0 <= j < |init| ==> runs[j] == init[j];
  }

  lemma {:induction false} SoleRun(runs: seq<CheckRun>, name: string)
    ensures RunsNamed(runs, name) == [] <==> Absent(runs, name)
    ensures |RunsNamed(runs, name)| == 1 ==> exists i :: IsSole(runs, name, i)
    ensures forall i :: IsSole(runs, name, i) ==> 0 <= i < |runs| && RunsNamed(runs, name) == [runs[i]]
  {
    hide Absent, IsSole;
    if runs == [] {
      NoneSole(name);
    } else {
      var n := |runs| - 1;
      var init := runs[..n];
      assert runs == init + [runs[n]];
      SoleRun(init, name);
      SolePush(init, runs[n], name);
      if |RunsNamed(runs, name)| == 1 && runs[n].name != name {
        var i :| IsSole(init, name, i);
        assert IsSole(runs, name, i);
      }
    }
  }

  lemma NoneSole(name: string)
    ensures Absent([], name) && forall i :: !IsSole([], name, i)
  {
  }

  ghost predicate SoleSuccess(runs: seq<CheckRun>, name: string) {
    exists i :: IsSole(runs, name, i) && Succeeded(runs[i])
  }

  lemma OutcomeIsPass(runs: seq<CheckRun>, name: string)
    ensures OutcomeOf(RunsNamed(runs, name)).Pass? <==> SoleSuccess(runs, name)
    ensures forall i :: IsSole(runs, name, i) ==>
              OutcomeOf(RunsNamed(runs, name)) == if Succeeded(runs[i]) then Pass(runs[i].id) else NotPass(runs[i].id)
  {
    hide RunsNamed;
    SoleRun(runs, name);
    if |RunsNamed(runs, name)| == 1 {
      var i :| IsSole(runs, name, i);
      forall j | IsSole(runs, name, j) ensures j == i {
      }
    }
  }

  ghost predicate HasSole(runs: seq<CheckRun>, name: string) {
    exists i :: IsSole(runs, name, i)
  }

  /** No run: missing. One run: it decides. Several: ambiguous. */
  ghost predicate Graded(o: Outcome, runs: seq<CheckRun>, name: string) {
    && (o.Missing? <==> Absent(runs, name))
    && (o.Pass? || o.NotPass? <==> HasSole(runs, name))
    && (forall i :: IsSole(runs, name, i) ==> o == if Succeeded(runs[i]) then Pass(runs[i].id) else NotPass(runs[i].id))
  }

  /** A record says of every expected name how often and how it ran. */
  ghost predicate RecordMeans(r: CheckRecord, runs: seq<CheckRun>, repo: string) {
    && r.repository == repo && r.outcomes.Keys == EXPECTED
    && (forall name :: name in EXPECTED ==> Graded(r.outcomes[name], runs, name))
    && r.present == |set name | name in EXPECTED && HasSole(runs, name)|
    && (r.allGreen <==> forall name :: name in EXPECTED ==> SoleSuccess(runs, name))
  }

  lemma OutcomeIsGraded(runs: seq<CheckRun>, name: string)
    ensures Graded(OutcomeOf(RunsNamed(runs, name)), runs, name)
    ensures OutcomeOf(RunsNamed(runs, name)).Pass? <==> SoleSuccess(runs, name)
  {
    SoleRun(runs, name);
    OutcomeIsPass(runs, name);
    hide RunsNamed, Absent, IsSole, SoleSuccess, Succeeded;
  }

  lemma GradeIsUnique(o: Outcome, q: Outcome, runs: seq<CheckRun>, name: string)
    requires Graded(o, runs, name) && Graded(q, runs, name)
    ensures o == q
  {
    hide Absent, IsSole, Succeeded;
    if HasSole(runs, name) {
      var i :| IsSole(runs, name, i);
    }
  }

  /** The record computed from the groups has this meaning, and no other record has. */
  lemma RecordForMeans(runs: seq<CheckRun>, repo: string)
    ensures RecordMeans(RecordFor(runs, repo), runs, repo)
  {
    hide EXPECTED, RunsNamed, OutcomeOf, Graded, HasSole, SoleSuccess;
    var r := RecordFor(runs, repo);
    forall name | name in EXPECTED
      ensures Graded(r.outcomes[name], runs, name)
      ensures r.outcomes[name].Pass? || r.outcomes[name].NotPass? <==> HasSole(runs, name)
      ensures r.outcomes[name].Pass? <==> SoleSuccess(runs, name)
    {
      OutcomeIsGraded(runs, name);
      GradedIsSole(r.outcomes[name], runs, name);
    }
    assert (set name | name in EXPECTED && (r.outcomes[name].Pass? || r.outcomes[name].NotPass?))
        == set name | name in EXPECTED && HasSole(runs, name);
  }

  lemma GradedIsSole(o: Outcome, runs: seq<CheckRun>, name: string)
    requires Graded(o, runs, name)
    ensures o.Pass? || o.NotPass? <==> HasSole(runs, name)
  {
    hide Absent, HasSole, IsSole;
  }

  lemma RecordIsUnique(r: CheckRecord, s: CheckRecord, runs: seq<CheckRun>, repo: string)
    requires RecordMeans(r, runs, repo) && RecordMeans(s, runs, repo)
    ensures r == s
  {
    hide EXPECTED, Graded, HasSole, SoleSuccess;
    forall name | name in EXPECTED ensures r.outcomes[name] == s.outcomes[name] {
      GradeIsUnique(r.outcomes[name], s.outcomes[name], runs, name);
    }
    assert r.outcomes == s.outcomes;
  }

  /** All green means one successful run, and no second run, per expected name. */
  lemma GreenIsOneSuccessEach(runs: seq<CheckRun>, repo: string)
    ensures RecordFor(runs, repo).allGreen <==> forall name :: name in EXPECTED ==> SoleSuccess(runs, name)
  {
    RecordForMeans(runs, repo);
    hide EXPECTED, RecordFor, SoleSuccess, Graded, HasSole;
  }

  // ------------------------------------------------------------------
  // Grouping and grading
  // ------------------------------------------------------------------

  ghost predicate Grouped(grouped: map<string, seq<CheckRun>>, runs: seq<CheckRun>) {
    && grouped.Keys == EXPECTED
    && forall name :: name in EXPECTED ==> grouped[name] == RunsNamed(runs, name)
  }

  lemma GroupedPush(grouped: map<string, seq<CheckRun>>, runs: seq<CheckRun>, i: nat)
    requires i < |runs| && Grouped(grouped, runs[..i])
    ensures grouped.Keys == EXPECTED
    ensures runs[i].name in grouped ==>
              Grouped(grouped[runs[i].name := grouped[runs[i].name] + [runs[i]]], runs[..i + 1])
    ensures runs[i].name !in grouped ==> Grouped(grouped, runs[..i + 1])
  {
    hide EXPECTED, RunsNamed;
    forall name ensures RunsNamed(runs[..i + 1], name)
                     == RunsNamed(runs[..i], name) + if runs[i].name == name then [runs[i]] else []
    {
      RunsPush(runs, i, name);
    }
  }

  lemma NothingGrouped(grouped: map<string, seq<CheckRun>>, runs: seq<CheckRun>)
    requires grouped == map name | name in EXPECTED :: []
    ensures Grouped(grouped, runs[..0])
  {
    hide EXPECTED;
  }

  /** `sorted(EXPECTED_CONTEXTS)`. */
  const NAMES: seq<string> := Sorted(STARTING + ADDED)

  lemma NamesFacts()
    ensures Increasing(NAMES) && Items(NAMES) == EXPECTED
  {
    NamesApart();
    var all := STARTING + ADDED;
    hide STARTING, ADDED, Sorted, Increasing;
    forall i, j | 0 <= i < j < |all| ensures all[i] != all[j] {
      if i < |STARTING| <= j {
        assert all[i] in Items(STARTING) && all[j] in Items(ADDED);
      }
    }
    SortedFacts(all);
  }

  /** Grades every group in name order: no run is missing, a single run decides,
      and several are ambiguous. */
  method Grade(grouped: map<string, seq<CheckRun>>, repo: string, ghost runs: seq<CheckRun>)
    returns (r: CheckRecord)
    requires Grouped(grouped, runs)
    ensures RecordMeans(r, runs, repo)
  {
    NamesFacts();
    hide EXPECTED, NAMES, RunsNamed, OutcomeOf, Increasing, RecordMeans, Graded;
    var outcomes: map<string, Outcome> := map[];
    for i := 0 to |NAMES|
      invariant outcomes.Keys == Items(NAMES[..i])
      invariant forall name :: name in outcomes ==> outcomes[name] == OutcomeOf(RunsNamed(runs, name))
    {
      var name := NAMES[i];
      assert name in Items(NAMES);
      assert NAMES[..i + 1] == NAMES[..i] + [name];
      var matches := grouped[name];
      var outcome;
      if matches == [] {
        outcome := Missing;
      } else if |matches| != 1 {
        outcome := Ambiguous;
      } else {
        var selected := matches[0];
        outcome := if selected.status == "completed" && selected.conclusion == "success"
                   then Pass(selected.id) else NotPass(selected.id);
      }
      OutcomeCases(matches, outcome);
      outcomes := outcomes[name := outcome];
    }
    assert NAMES[..|NAMES|] == NAMES;
    assert outcomes == OutcomesOf(runs);
    var present := set name | name in outcomes && (outcomes[name].Pass? || outcomes[name].NotPass?);
    var allGreen := forall name :: name in outcomes ==> outcomes[name].Pass?;
    r := CheckRecord(repo, outcomes, |present|, allGreen);
    assert present == set name | name in EXPECTED && (outcomes[name].Pass? || outcomes[name].NotPass?);
    assert r == RecordFor(runs, repo);
    RecordForMeans(runs, repo);
  }

  lemma OutcomeCases(matches: seq<CheckRun>, o: Outcome)
    requires matches == [] ==> o == Missing
    requires |matches| > 1 ==> o == Ambiguous
    requires |matches| == 1 ==> o == if matches[0].status == "completed" && matches[0].conclusion == "success"
                                     then Pass(matches[0].id) else NotPass(matches[0].id)
    ensures o == OutcomeOf(matches)
  {
  }

  predicate RunsOk(runs: seq<CheckRun>, sha: string) {
    forall i :: 0 <= i < |runs| ==> RunOk(runs[i], sha)
  }

  /** The preflight: a candidate whose expected runs are all identified. */
  function ChecksOf(pr: PullState, runs: seq<CheckRun>, number: int, sha: string, repo: string): Result<CheckRecord> {
    if IsCandidate(pr, number, sha, repo) && RunsOk(runs, sha) then Ok(RecordFor(runs, repo)) else Refused
  }

  /** Groups the runs by expected name, then grades every group. */
  method EvaluateChecks(pr: PullState, runs: seq<CheckRun>, number: int, sha: string, repo: string)
    returns (r: Result<CheckRecord>)
    ensures r.Ok? <==> IsCandidate(pr, number, sha, repo) && RunsOk(runs, sha)
    ensures r.Ok? ==> RecordMeans(r.value, runs, repo)
    ensures r == ChecksOf(pr, runs, number, sha, repo)
  {
    hide EXPECTED, RecordFor, RecordMeans, Grouped, RepoShape, IsHex;
    if !RepoShape(repo) || !IsHex(sha, 40) || number <= 0 {
      return Refused;
    }
    if pr.number != number || !pr.isOpen || pr.headSha != sha || pr.baseRef != "main" || pr.baseRepo != repo
       || pr.headRepo != repo {
      return Refused;
    }
    var grouped: map<string, seq<CheckRun>> := map name | name in EXPECTED :: [];
    assert Grouped(grouped, runs[..0]) by { NothingGrouped(grouped, runs); }
    for i := 0 to |runs|
      invariant Grouped(grouped, runs[..i])
      invariant forall k :: 0 <= k < i ==> RunOk(runs[k], sha)
    {
      var check := runs[i];
      GroupedPush(grouped, runs, i);
      if check.name in grouped {
        if check.id <= 0 || check.headSha != sha || check.app != "github-actions" {
          assert !RunOk(runs[i], sha);
          return Refused;
        }
        grouped := grouped[check.name := grouped[check.name] + [check]];
      }
    }
    assert runs[..|runs|] == runs;
    var record := Grade(grouped, repo, runs);
    RecordForMeans(runs, repo);
    RecordIsUnique(record, RecordFor(runs, repo), runs, repo);
    return Ok(record);
  }

  // ------------------------------------------------------------------
  // The eleven names
  // ------------------------------------------------------------------

  lemma ElevenNames()
    ensures ORIGINAL !! Items(ADDED) && EXPECTED - ORIGINAL == Items(ADDED)
    ensures |STARTING| == |ORIGINAL| == 4 && |ADDED| == |Items(ADDED)| == 7 && |EXPECTED| == 11
  {
    NamesApart();
    ItemsCount(STARTING);
    ItemsCount(ADDED);
    hide Items, Distinct;
    hide STARTING, ADDED;
    SizeOfUnion(Items(STARTING), Items(ADDED));
  }

  lemma SizeOfUnion(a: set<string>, b: set<string>)
    requires a !! b
    ensures |a + b| == |a| + |b| && (a + b) - a == b
  {
  }

  lemma NamesApart()
    ensures |STARTING| == 4 && |ADDED| == 7
    ensures Distinct(STARTING) && Distinct(ADDED) && Items(STARTING) !! Items(ADDED)
  {
    assert |STARTING[0]| == 13 && |STARTING[1]| == 26 && |STARTING[2]| == 28 && |STARTING[3]| == 25;
    assert |ADDED[0]| == 34 && |ADDED[1]| == 28 && |ADDED[2]| == 27 && |ADDED[3]| == 36;
    assert |ADDED[4]| == 29 && |ADDED[5]| == 14 && |ADDED[6]| == 19;
    assert ADDED[1][0] == 'O' && STARTING[2][0] == 'F';
  }
}

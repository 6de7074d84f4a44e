/** Red and green observations of one disposable pull request, and the comparison
    that pairs them. */
module Observation {
  import opened Outcomes
  import opened PyText
  import opened Rulesets
  import Timestamps

  const NEW_CONTEXTS: set<string> := EXPECTED - ORIGINAL

  const FAILING := {"failure", "timed_out", "cancelled", "action_required"}

  datatype Phase = Red | Green

  /** What one capture reads from the server, and when. */
  datatype Capture = Capture(
    listed: seq<Listing>, ruleset: Ruleset, pr: PullState, runs: seq<CheckRun>,
    number: int, sha: string, target: string, now: Timestamps.Utc)

  datatype Record = Record(
    repository: string, rulesetId: int, number: int, target: string, phase: Phase,
    headSha: string, baseSha: string, headRef: string, rulesetStamp: string, runId: int, observedAt: string,
    redSeen: bool, greenSeen: bool)

  datatype Paired = Paired(rulesetId: int, number: int, target: string)

  /** Every expected check passes, except the target in the red phase. */
  predicate OutcomesFit(outcomes: map<string, Outcome>, target: string, phase: Phase) {
    && outcomes.Keys == EXPECTED
    && forall name :: name in EXPECTED ==>
         if phase.Red? && name == target then outcomes[name].NotPass? else outcomes[name].Pass?
  }

  predicate MergeStateFits(pr: PullState, phase: Phase) {
    && !pr.draft && pr.mergeable && pr.mergeableState == (if phase.Red? then "blocked" else "clean")
    && IsHex(pr.baseSha, 40) && pr.headRef != ""
  }

  predicate TargetFits(selected: seq<CheckRun>, phase: Phase) {
    && |selected| == 1
    && selected[0].conclusion == (if phase.Red? then "failure" else "success")
    && selected[0].status == "completed"
  }

  predicate OtherFailure(run: CheckRun) {
    run.name !in EXPECTED && run.conclusion in FAILING
  }

  function Observe(c: Capture, phase: Phase): Result<Record> {
    if c.target !in NEW_CONTEXTS || !IsHex(c.sha, 40) then Refused
    else
      var protection := Evaluate(c.listed, c.ruleset, REPO);
      var checks := ChecksOf(c.pr, c.runs, c.number, c.sha, REPO);
      if protection.Refused? || checks.Refused? then Refused
      else if !protection.value.complete || protection.value.rulesetId != RULESET_ID
              || protection.value.requiredCount != 11
              || !MergeStateFits(c.pr, phase) || c.ruleset.updatedAt == "" then Refused
      else if !OutcomesFit(checks.value.outcomes, c.target, phase) then Refused
      else
        var selected := RunsNamed(c.runs, c.target);
        if !TargetFits(selected, phase) then Refused
        else if exists i :: 0 <= i < |c.runs| && OtherFailure(c.runs[i]) then Refused
        else Ok(Record(REPO, RULESET_ID, c.number, c.target, phase, c.sha, c.pr.baseSha, c.pr.headRef,
                       c.ruleset.updatedAt, selected[0].id, Timestamps.Stamp(c.now), phase.Red?, phase.Green?))
  }

  /** A stored record that could be one half of a pair. */
  predicate Complete(r: Record, phase: Phase) {
    && r.repository == REPO && r.rulesetId == RULESET_ID && r.phase == phase && r.target in NEW_CONTEXTS
    && r.number >= 1 && r.runId >= 1 && r.headRef != "" && r.rulesetStamp != ""
    && IsHex(r.headSha, 40) && IsHex(r.baseSha, 40)
    && r.redSeen == phase.Red? && r.greenSeen == phase.Green?
  }

  function Compare(red: Record, green: Record): Result<Paired> {
    if !Complete(red, Red) || !Complete(green, Green) then Refused
    else if && red.number == green.number && red.headRef == green.headRef && red.baseSha == green.baseSha
            && red.target == green.target && red.rulesetStamp == green.rulesetStamp
            && red.headSha != green.headSha && red.runId != green.runId
            && LexLess(red.observedAt, green.observedAt)
    then Ok(Paired(RULESET_ID, red.number, red.target))
    else Refused
  }

  /** A stored record holds the fixed identities, an added context, positive numbers
      and the two flags of its phase. */
  ghost predicate Stored(r: Record, phase: Phase) {
    && r.repository == "eh3aneba/maritime-claims-platform" && r.rulesetId == 20842512
    && r.target in ADDED && r.number > 0 && r.runId > 0 && |r.headRef| > 0 && |r.rulesetStamp| > 0
    && IsHex(r.headSha, 40) && IsHex(r.baseSha, 40)
    && r.phase == phase && (r.redSeen <==> phase == Red) && (r.greenSeen <==> phase == Green)
  }

  lemma CompleteIsStored(r: Record, phase: Phase)
    ensures Complete(r, phase) <==> Stored(r, phase)
  {
    ElevenNames();
    hide EXPECTED, ORIGINAL, ADDED, STARTING, IsHex;
  }

  /** Any two stored records pair exactly when they agree on pull request, ref, base,
      target and ruleset stamp, differ in head and run, and are in order. */
  lemma CompareIsExact(red: Record, green: Record)
    ensures Compare(red, green).Ok?
            <==> && Stored(red, Red) && Stored(green, Green)
                 && red.number == green.number && red.headRef == green.headRef && red.baseSha == green.baseSha
                 && red.target == green.target && red.rulesetStamp == green.rulesetStamp
                 && red.headSha != green.headSha && red.runId != green.runId
                 && LexLess(red.observedAt, green.observedAt)
    ensures Compare(red, green).Ok? ==>
              var p := Compare(red, green).value;
              p.rulesetId == 20842512 && p.number == red.number && p.target == red.target
  {
    CompleteIsStored(red, Red);
    CompleteIsStored(green, Green);
    hide Complete, Stored, LexLess;
  }

  /** The target's one check run in a capture. */
  predicate IsTargetRun(c: Capture, i: int) {
    IsSole(c.runs, c.target, i)
  }

  lemma TargetRun(c: Capture, phase: Phase) returns (i: nat)
    requires Observe(c, phase).Ok?
    ensures IsTargetRun(c, i) && Observe(c, phase).value.runId == c.runs[i].id >= 1
    ensures c.runs[i].status == "completed"
    ensures c.runs[i].conclusion == if phase.Red? then "failure" else "success"
  {
    hide Evaluate, EXPECTED, ORIGINAL, RunsNamed, RecordFor, OutcomesFit, MergeStateFits, IsHex, OtherFailure;
    SoleRun(c.runs, c.target);
    var k :| IsSole(c.runs, c.target, k);
    i := k;
    assert RunOk(c.runs[i], c.sha);
  }

  // ------------------------------------------------------------------
  // What a capture must show
  // ------------------------------------------------------------------

  /** The ruleset is ours, secured, and requires exactly the eleven names. */
  ghost predicate Protected(listed: seq<Listing>, d: Ruleset) {
    && d.id == 20842512 && d.updatedAt != ""
    && exists s, p :: Identified(listed, d, REPO, s, p) && Secured(d, REPO, s, p)
                      && forall x :: Requires(d.rules[s].required, x) <==> x in EXPECTED
  }

  /** The target ran once, was completed, and failed in the red phase only. */
  ghost predicate TargetShown(c: Capture, phase: Phase) {
    exists i :: IsTargetRun(c, i) && c.runs[i].status == "completed"
                && c.runs[i].conclusion == if phase.Red? then "failure" else "success"
  }

  ghost predicate Failed(run: CheckRun) {
    || run.conclusion == "failure" || run.conclusion == "timed_out"
    || run.conclusion == "cancelled" || run.conclusion == "action_required"
  }

  ghost predicate Capturable(c: Capture, phase: Phase) {
    && c.target in Items(ADDED) && Protected(c.listed, c.ruleset)
    && IsCandidate(c.pr, c.number, c.sha, REPO) && RunsOk(c.runs, c.sha)
    && !c.pr.draft && c.pr.mergeable && c.pr.mergeableState == (if phase.Red? then "blocked" else "clean")
    && IsHex(c.pr.baseSha, 40) && c.pr.headRef != ""
    && TargetShown(c, phase)
    && (forall name :: name in EXPECTED && name != c.target ==> SoleSuccess(c.runs, name))
    && OthersQuiet(c)
  }

  lemma ProtectedIsComplete(listed: seq<Listing>, d: Ruleset)
    ensures Protected(listed, d)
            <==> && Evaluate(listed, d, REPO).Ok? && Evaluate(listed, d, REPO).value.complete
                 && Evaluate(listed, d, REPO).value.rulesetId == RULESET_ID && d.updatedAt != ""
  {
    ReadbackMeans(listed, d, REPO);
    hide Evaluate, SoleListing, SoleStatus, SolePull, RepoShape, Secured, EXPECTED, Requires;
    if Evaluate(listed, d, REPO).Ok? {
      var s, p :| Identified(listed, d, REPO, s, p);
      assert Reads(Evaluate(listed, d, REPO).value, d, REPO, s, p);
    }
  }

  lemma EvaluatedCount(listed: seq<Listing>, d: Ruleset)
    ensures Evaluate(listed, d, REPO).Ok? && Evaluate(listed, d, REPO).value.complete
            ==> Evaluate(listed, d, REPO).value.requiredCount == 11
  {
    ReadbackMeans(listed, d, REPO);
    hide Evaluate, SoleListing, SolePull, RepoShape, EXPECTED;
    if Evaluate(listed, d, REPO).Ok? && Evaluate(listed, d, REPO).value.complete {
      var s, p :| Identified(listed, d, REPO, s, p);
      assert Reads(Evaluate(listed, d, REPO).value, d, REPO, s, p);
      ElevenContexts(d.rules[s].required);
    }
  }

  /** Contexts without repetition that are the eleven names are eleven. */
  lemma ElevenContexts(checks: seq<Check>)
    requires forall i, j :: 0 <= i < j < |checks| ==> checks[i].context != checks[j].context
    requires forall x :: Requires(checks, x) <==> x in EXPECTED
    ensures |checks| == 11
  {
    ElevenNames();
    NamesOfChecks(checks);
    hide EXPECTED;
    ItemsCount(Contexts(checks));
    assert Items(Contexts(checks)) == EXPECTED;
  }

  lemma OutcomesShown(c: Capture, phase: Phase)
    requires c.target in EXPECTED
    ensures OutcomesFit(OutcomesOf(c.runs), c.target, phase) && TargetFits(RunsNamed(c.runs, c.target), phase)
            <==> && TargetShown(c, phase)
                 && forall name :: name in EXPECTED && name != c.target ==> SoleSuccess(c.runs, name)
  {
    hide EXPECTED, RunsNamed, OutcomeOf, SoleSuccess;
    forall name ensures OutcomeOf(RunsNamed(c.runs, name)).Pass? <==> SoleSuccess(c.runs, name) {
      OutcomeIsPass(c.runs, name);
    }
    TargetOutcome(c, phase);
  }

  lemma TargetOutcome(c: Capture, phase: Phase)
    ensures TargetFits(RunsNamed(c.runs, c.target), phase) <==> TargetShown(c, phase)
    ensures TargetShown(c, phase) ==>
              var o := OutcomeOf(RunsNamed(c.runs, c.target)); if phase.Red? then o.NotPass? else o.Pass?
  {
    SoleRun(c.runs, c.target);
    hide RunsNamed;
    if |RunsNamed(c.runs, c.target)| == 1 {
      var i :| IsSole(c.runs, c.target, i);
      assert IsTargetRun(c, i);
    }
  }

  ghost predicate OthersQuiet(c: Capture) {
    forall i :: 0 <= i < |c.runs| && c.runs[i].name !in EXPECTED ==> !Failed(c.runs[i])
  }

  /** The tests of the capture, with the readback and the outcomes written out. */
  lemma ObserveCases(c: Capture, phase: Phase)
    ensures Observe(c, phase).Ok?
            <==> && c.target in NEW_CONTEXTS && IsHex(c.sha, 40)
                 && Evaluate(c.listed, c.ruleset, REPO).Ok? && Evaluate(c.listed, c.ruleset, REPO).value.complete
                 && Evaluate(c.listed, c.ruleset, REPO).value.rulesetId == RULESET_ID
                 && Evaluate(c.listed, c.ruleset, REPO).value.requiredCount == 11
                 && IsCandidate(c.pr, c.number, c.sha, REPO) && RunsOk(c.runs, c.sha)
                 && MergeStateFits(c.pr, phase) && c.ruleset.updatedAt != ""
                 && OutcomesFit(OutcomesOf(c.runs), c.target, phase) && TargetFits(RunsNamed(c.runs, c.target), phase)
                 && OthersQuiet(c)
  {
    forall i | 0 <= i < |c.runs|
      ensures OtherFailure(c.runs[i]) <==> c.runs[i].name !in EXPECTED && Failed(c.runs[i])
    {
      FailingAre(c.runs[i]);
    }
    hide Evaluate, EXPECTED, ORIGINAL, IsCandidate, RunsOk, MergeStateFits, OutcomesFit, TargetFits, RunsNamed,
      OutcomesOf, IsHex, OtherFailure, Failed;
  }

  lemma FailingAre(run: CheckRun)
    ensures run.conclusion in FAILING <==> Failed(run)
  {
  }

  lemma RecordedFields(c: Capture, phase: Phase)
    requires Observe(c, phase).Ok?
    ensures Observe(c, phase).value
         == Record(REPO, RULESET_ID, c.number, c.target, phase, c.sha, c.pr.baseSha, c.pr.headRef, c.ruleset.updatedAt,
                   Observe(c, phase).value.runId, Timestamps.Stamp(c.now), phase.Red?, phase.Green?)
  {
    hide Evaluate, EXPECTED, ORIGINAL, MergeStateFits, OutcomesFit, TargetFits, RunsNamed, IsHex, OtherFailure,
      Timestamps.Stamp;
  }

  /** A capture is recorded exactly when ruleset, pull request and runs show what the
      phase needs. */
  lemma CaptureIsExact(c: Capture, phase: Phase)
    ensures Observe(c, phase).Ok? <==> Capturable(c, phase)
  {
    NewNames(c.target);
    ObserveCases(c, phase);
    ProtectedIsComplete(c.listed, c.ruleset);
    EvaluatedCount(c.listed, c.ruleset);
    CandidateHead(c);
    if c.target in NEW_CONTEXTS {
      OutcomesShown(c, phase);
    }
    hide Observe, Protected, Evaluate, EXPECTED, ORIGINAL, NEW_CONTEXTS, RunsNamed, OutcomesOf, TargetShown,
      SoleSuccess, TargetFits, OutcomesFit, IsHex, Items, ADDED, IsCandidate, RunsOk, Failed;
  }

  lemma NewNames(name: string)
    ensures name in NEW_CONTEXTS <==> name in Items(ADDED)
    ensures name in NEW_CONTEXTS ==> name in EXPECTED
  {
    ElevenNames();
    hide Items, ADDED, STARTING;
  }

  lemma CandidateHead(c: Capture)
    ensures IsCandidate(c.pr, c.number, c.sha, REPO) ==> IsHex(c.sha, 40)
  {
    hide IsHex, RepoShape;
  }

  /** The record holds what was read, and the target's own run. */
  lemma RecordHolds(c: Capture, phase: Phase)
    requires Observe(c, phase).Ok?
    ensures var r := Observe(c, phase).value;
            && r.repository == REPO && r.rulesetId == 20842512 && r.number == c.number && r.target == c.target
            && r.phase == phase && r.headSha == c.sha && r.baseSha == c.pr.baseSha && r.headRef == c.pr.headRef
            && r.rulesetStamp == c.ruleset.updatedAt && r.observedAt == Timestamps.Stamp(c.now)
            && (r.redSeen <==> phase.Red?) && (r.greenSeen <==> phase.Green?)
            && (exists i :: IsTargetRun(c, i) && r.runId == c.runs[i].id)
  {
    RecordedFields(c, phase);
    var i := TargetRun(c, phase);
    hide Observe, IsTargetRun, Timestamps.Stamp;
  }

  /** Whatever a capture records passes the stored-record checks of its own phase. */
  lemma ObservedIsComplete(c: Capture, phase: Phase)
    requires Observe(c, phase).Ok?
    ensures Complete(Observe(c, phase).value, phase)
  {
    hide Evaluate, EXPECTED, ORIGINAL, RunsNamed, RecordFor, OutcomesFit, OtherFailure, IsHex;
    var _ := TargetRun(c, phase);
  }

  /** Two captures make a pair exactly when they show one pull request, base,
      target and ruleset state, two different heads and check runs, and the red one
      was taken at the earlier instant. */
  lemma PairExactly(r: Capture, g: Capture)
    requires Observe(r, Red).Ok? && Observe(g, Green).Ok?
    requires Timestamps.Valid(r.now) && Timestamps.Valid(g.now)
    ensures Compare(Observe(r, Red).value, Observe(g, Green).value).Ok?
            <==> && r.number == g.number && r.pr.headRef == g.pr.headRef && r.pr.baseSha == g.pr.baseSha
                 && r.target == g.target && r.ruleset.updatedAt == g.ruleset.updatedAt
                 && r.sha != g.sha
                 && (forall i, j :: IsTargetRun(r, i) && IsTargetRun(g, j) ==> r.runs[i].id != g.runs[j].id)
                 && Timestamps.Instant(r.now) < Timestamps.Instant(g.now)
  {
    ObservedIsComplete(r, Red);
    ObservedIsComplete(g, Green);
    var i := TargetRun(r, Red);
    var j := TargetRun(g, Green);
    Timestamps.StampOrderIsTimeOrder(r.now, g.now);
    SoleIsUnique(r, i);
    SoleIsUnique(g, j);
    hide Complete, Evaluate, RunsNamed, ChecksOf, OutcomesFit, OtherFailure, TargetFits, MergeStateFits, IsHex,
      LexLess, Timestamps.Stamp, Timestamps.Instant, Timestamps.Valid, EXPECTED, ORIGINAL, IsTargetRun;
  }

  lemma SoleIsUnique(c: Capture, i: int)
    requires IsTargetRun(c, i)
    ensures forall k :: IsTargetRun(c, k) ==> k == i
  {
  }

  /** In a red capture the target's run is the only run of any name that failed,
      timed out, was cancelled or wants action; in a green capture there is none. */
  lemma OnlyTargetFails(c: Capture, phase: Phase)
    requires Observe(c, phase).Ok?
    ensures forall i :: 0 <= i < |c.runs| && c.runs[i].conclusion in FAILING ==> phase.Red? && IsTargetRun(c, i)
  {
    hide Evaluate, EXPECTED, ORIGINAL, RunsNamed, MergeStateFits, IsHex, OutcomeOf, IsSole, RunsOk;
    forall i | 0 <= i < |c.runs| && c.runs[i].conclusion in FAILING
      ensures phase.Red? && IsTargetRun(c, i)
    {
      assert !OtherFailure(c.runs[i]);
      FailingIsTarget(c, phase, i);
    }
  }

  lemma FailingIsTarget(c: Capture, phase: Phase, i: nat)
    requires Observe(c, phase).Ok? && i < |c.runs|
    requires c.runs[i].conclusion in FAILING && c.runs[i].name in EXPECTED
    ensures phase.Red? && IsTargetRun(c, i)
  {
    hide Evaluate, EXPECTED, ORIGINAL, RunsNamed, MergeStateFits, IsHex, OutcomeOf, OtherFailure, RunsOk;
    var name := c.runs[i].name;
    var t := TargetRun(c, phase);
    if name == c.target {
      assert t == i;
    } else {
      OutcomeIsPass(c.runs, name);
      var k :| IsSole(c.runs, name, k) && Succeeded(c.runs[k]);
      assert k == i;
    }
    NotSuccess();
  }

  lemma NotSuccess()
    ensures "success" !in FAILING
  {
  }
}

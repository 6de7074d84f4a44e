/** The four-to-eleven change of the required checks: the proposal, and the
    guarded protocol that sends at most one write. */
module Activation {
  import opened Outcomes
  import opened PyText
  import opened Rulesets
  import opened Tally

  // ------------------------------------------------------------------
  // The proposal
  // ------------------------------------------------------------------

  /** The fields the update sends. */
  datatype Proposal = Proposal(
    name: string, target: string, enforcement: string, bypass: seq<string>,
    includeRefs: seq<string>, excludeRefs: seq<string>, rules: seq<Rule>)

  function AddedChecks(): (r: seq<Check>)
    ensures |r| == |ADDED| && forall i :: 0 <= i < |r| ==> r[i] == Check(ADDED[i], "")
  {
    seq(|ADDED|, i requires 0 <= i < |ADDED| => Check(ADDED[i], ""))
  }

  /** Replaces the context list of the first status rule. */
  function WithRequired(rules: seq<Rule>, required: seq<Check>): seq<Rule> {
    if rules == [] then []
    else if rules[0].StatusChecks? then [rules[0].(required := required)] + rules[1..]
    else [rules[0]] + WithRequired(rules[1..], required)
  }

  predicate ChecksReady(record: CheckRecord) {
    && record.allGreen && record.present == |EXPECTED| && record.outcomes.Keys == EXPECTED
    && (forall name :: name in record.outcomes ==> record.outcomes[name].Pass?)
    && record.repository == REPO
  }

  function MakeProposal(listed: seq<Listing>, d: Ruleset, record: CheckRecord): Result<Proposal> {
    if !ChecksReady(record) then Refused
    else
      var state := Evaluate(listed, d, REPO);
      if state.Refused? then Refused
      else if state.value.rulesetId != RULESET_ID || state.value.unexpectedCount != 0 || !state.value.safe then Refused
      else
        RuleKinds(d.rules);
        var existing := StatusRules(d.rules)[0].required;
        var current := Contexts(existing);
        if |current| != |Items(current)| then Refused
        else if Items(current) != ORIGINAL then Refused
        else if state.value.missing != EXPECTED - ORIGINAL || |EXPECTED - ORIGINAL| != 7 then Refused
        else
          var required := existing + AddedChecks();
          if |required| != 11 || Items(Contexts(required)) != EXPECTED then Refused
          else Ok(Proposal(d.name, d.target, d.enforcement, d.bypass, d.includeRefs, d.excludeRefs,
                           WithRequired(d.rules, required)))
  }

  /** The server applies the update to the ruleset it was computed from. */
  function Install(p: Proposal, d: Ruleset): Ruleset {
    d.(name := p.name, target := p.target, enforcement := p.enforcement, bypass := p.bypass,
       includeRefs := p.includeRefs, excludeRefs := p.excludeRefs, rules := p.rules)
  }

  /** The preflight's own record is ready exactly when it is all green. */
  lemma ReadyIsGreen(runs: seq<CheckRun>)
    ensures ChecksReady(RecordFor(runs, REPO)) <==> RecordFor(runs, REPO).allGreen
  {
    hide EXPECTED, RunsNamed, OutcomeOf;
    var r := RecordFor(runs, REPO);
    if r.allGreen {
      assert (set name | name in EXPECTED && (r.outcomes[name].Pass? || r.outcomes[name].NotPass?)) == EXPECTED;
    }
  }

  /** A record is ready when it is ours, says green and eleven, and holds a numbered
      pass for exactly the eleven names. */
  lemma ReadyMeans(record: CheckRecord)
    ensures ChecksReady(record)
            <==> && record.repository == "eh3aneba/maritime-claims-platform" && record.allGreen && record.present == 11
                 && (forall name :: name in record.outcomes <==> name in STARTING || name in ADDED)
                 && (forall name :: name in record.outcomes ==> exists id :: record.outcomes[name] == Pass(id))
  {
    ElevenNames();
    hide ADDED, STARTING;
    assert forall name :: name in EXPECTED <==> name in STARTING || name in ADDED;
    forall name | name in record.outcomes
      ensures record.outcomes[name].Pass? <==> exists id :: record.outcomes[name] == Pass(id)
    {
      if record.outcomes[name].Pass? {
        assert record.outcomes[name] == Pass(record.outcomes[name].id);
      }
    }
  }

  /** The context list the ruleset has now. */
  function Required(d: Ruleset): seq<Check>
    requires |StatusRules(d.rules)| == 1
  {
    RuleKinds(d.rules);
    StatusRules(d.rules)[0].required
  }

  /** A safe Protect main ruleset that requires exactly the four starting contexts. */
  predicate Eligible(listed: seq<Listing>, d: Ruleset) {
    && WellFormed(listed, d, REPO) && d.id == RULESET_ID
    && (RuleKinds(d.rules); Safe(d, REPO))
    && Items(Contexts(Required(d))) == ORIGINAL
  }

  /** Eligible, rule by rule: identified under the fixed id, every property, and the
      four starting contexts and no other. */
  lemma EligibleMeans(listed: seq<Listing>, d: Ruleset)
    ensures Eligible(listed, d)
            <==> && d.id == 20842512
                 && exists s, p :: Identified(listed, d, "eh3aneba/maritime-claims-platform", s, p)
                                   && Secured(d, "eh3aneba/maritime-claims-platform", s, p)
                                   && forall x :: Requires(d.rules[s].required, x) <==> x in STARTING
  {
    AnswersIdentified(listed, d, REPO);
    RuleKinds(d.rules);
    forall s, p | Identified(listed, d, REPO, s, p)
      ensures WellFormed(listed, d, REPO)
      ensures Required(d) == d.rules[s].required && (Safe(d, REPO) <==> Secured(d, REPO, s, p))
      ensures Items(Contexts(Required(d))) == ORIGINAL
              <==> forall x :: Requires(d.rules[s].required, x) <==> x in STARTING
    {
      SafeIsSecured(d, REPO, s, p);
      NamesOfChecks(d.rules[s].required);
      hide WellFormed, Safe, Secured, StatusRules, PullRules, Contexts, STARTING, Requires;
    }
    hide Identified, Safe, Secured, StatusRules, PullRules, Contexts, STARTING, Requires, Items;
  }

  lemma ContextsAppend(a: seq<Check>, b: seq<Check>)
    ensures Contexts(a + b) == Contexts(a) + Contexts(b)
    ensures Items(Contexts(a + b)) == Items(Contexts(a)) + Items(Contexts(b))
  {
    assert Contexts(a + b) == Contexts(a) + Contexts(b);
  }

  lemma AddedContexts()
    ensures Contexts(AddedChecks()) == ADDED
  {
    hide ADDED;
  }

  /** From a four-context list with no repeats, the new list is exactly the eleven. */
  lemma ElevenFollow(existing: seq<Check>)
    requires Items(Contexts(existing)) == ORIGINAL && |existing| == |Items(Contexts(existing))|
    ensures |existing + AddedChecks()| == 11
    ensures Items(Contexts(existing + AddedChecks())) == EXPECTED
  {
    hide ADDED, STARTING, Items, Contexts;
    ElevenNames();
    AddedContexts();
    ContextsAppend(existing, AddedChecks());
  }

  /** The unexpected-context, missing-context, count and final-list tests never
      decide: four conditions are all that the proposal depends on. */
  lemma ProposalCondition(listed: seq<Listing>, d: Ruleset, record: CheckRecord)
    ensures MakeProposal(listed, d, record).Ok? <==> ChecksReady(record) && Eligible(listed, d)
    ensures MakeProposal(listed, d, record).Ok? ==>
              MakeProposal(listed, d, record).value
              == Proposal(d.name, d.target, d.enforcement, d.bypass, d.includeRefs, d.excludeRefs,
                          WithRequired(d.rules, Required(d) + AddedChecks()))
  {
    hide ADDED, STARTING, Items, Contexts, ChecksReady, StatusRules, PullRules, WithRequired, Protecting;
    ElevenNames();
    if Eligible(listed, d) {
      ElevenFollow(Required(d));
      NothingUnexpected(Items(Contexts(Required(d))));
    }
  }

  lemma NothingUnexpected(actual: set<string>)
    requires actual == ORIGINAL
    ensures |actual - EXPECTED| == 0 && EXPECTED - actual == EXPECTED - ORIGINAL
  {
    hide ADDED, STARTING, Items;
    assert actual - EXPECTED == {};
  }

  // ------------------------------------------------------------------
  // Installing it
  // ------------------------------------------------------------------

  lemma {:induction false} UpdatedRules(rules: seq<Rule>, required: seq<Check>)
    ensures |WithRequired(rules, required)| == |rules|
    ensures PullRules(WithRequired(rules, required)) == PullRules(rules)
    ensures |StatusRules(WithRequired(rules, required))| == |StatusRules(rules)|
    ensures StatusRules(rules) != [] ==>
              StatusRules(rules)[0].StatusChecks? &&
              StatusRules(WithRequired(rules, required))[0] == StatusRules(rules)[0].(required := required)
    ensures forall r: Rule :: !r.StatusChecks? ==> (r in WithRequired(rules, required) <==> r in rules)
    ensures forall i :: 0 <= i < |rules| && !rules[i].StatusChecks? ==> WithRequired(rules, required)[i] == rules[i]
    ensures |StatusRules(rules)| == 1 ==> forall i :: 0 <= i < |rules| && rules[i].StatusChecks? ==>
              WithRequired(rules, required)[i] == rules[i].(required := required)
  {
    NoRules();
    hide StatusRules, PullRules;
    if rules == [] {
    } else {
      var tail, after := WithRequired(rules[1..], required), WithRequired(rules, required);
      UpdatedRules(rules[1..], required);
      assert rules == [rules[0]] + rules[1..];
      RulesCons(rules);
      RulesCons(after);
      if rules[0].StatusChecks? {
        assert after[1..] == rules[1..];
        NoStatusRules(rules[1..]);
      } else {
        assert after[1..] == tail;
      }
    }
  }

  lemma NoRules()
    ensures StatusRules([]) == [] && PullRules([]) == []
  {
  }

  lemma {:induction false} NoStatusRules(rules: seq<Rule>)
    ensures StatusRules(rules) == [] <==> forall i :: 0 <= i < |rules| ==> !rules[i].StatusChecks?
  {
    if rules == [] {
    } else {
      RulesCons(rules);
      NoStatusRules(rules[1..]);
    }
  }

  lemma RulesCons(rules: seq<Rule>)
    requires rules != []
    ensures StatusRules(rules) == (if rules[0].StatusChecks? then [rules[0]] else []) + StatusRules(rules[1..])
    ensures PullRules(rules) == (if rules[0].PullRequest? then [rules[0]] else []) + PullRules(rules[1..])
  {
    FilterCons(rules, IsStatusRule);
    FilterCons(rules, IsPullRule);
  }

  /** The installed ruleset differs from its origin in one list only: the status
      rule's contexts, where the old entries stay as the prefix. */
  lemma ProposalChangesOnlyContexts(listed: seq<Listing>, d: Ruleset, record: CheckRecord)
    requires MakeProposal(listed, d, record).Ok?
    ensures var after := Install(MakeProposal(listed, d, record).value, d);
            && after == d.(rules := after.rules) && |after.rules| == |d.rules|
            && (forall i :: 0 <= i < |d.rules| && !d.rules[i].StatusChecks? ==> after.rules[i] == d.rules[i])
            && (forall i :: 0 <= i < |d.rules| && d.rules[i].StatusChecks? ==>
                  after.rules[i] == d.rules[i].(required := d.rules[i].required + AddedChecks()))
  {
    hide ADDED, STARTING, Items, Contexts, ChecksReady, PullRules, Protecting, Safe, MakeProposal, WithRequired;
    ProposalCondition(listed, d, record);
    UpdatedRules(d.rules, Required(d) + AddedChecks());
    forall i | 0 <= i < |d.rules| && d.rules[i].StatusChecks? ensures d.rules[i].required == Required(d) {
      SoleStatusRule(d.rules, i);
    }
  }

  lemma {:induction false} SoleStatusRule(rules: seq<Rule>, i: nat)
    requires i < |rules| && rules[i].StatusChecks? && |StatusRules(rules)| == 1
    ensures StatusRules(rules) == [rules[i]]
  {
    RulesCons(rules);
    if rules[0].StatusChecks? {
      NoStatusRules(rules[1..]);
    } else {
      SoleStatusRule(rules[1..], i - 1);
    }
  }

  /** After any proposal is installed, the independent evaluator reports the
      ruleset complete with eleven contexts, and no second proposal is possible. */
  lemma ProposalCompletes(listed: seq<Listing>, d: Ruleset, record: CheckRecord, later: CheckRecord)
    requires MakeProposal(listed, d, record).Ok?
    ensures var after := Install(MakeProposal(listed, d, record).value, d);
            && Evaluate(listed, after, REPO) == Ok(Readback(RULESET_ID, 11, {}, 0, true, true))
            && MakeProposal(listed, after, later).Refused?
  {
    hide ADDED, STARTING, EXPECTED, ORIGINAL, Items, Contexts, ChecksReady, PullRules, StatusRules, Protecting,
      MakeProposal, WithRequired;
    ProposalCondition(listed, d, record);
    var required := Required(d) + AddedChecks();
    var after := Install(MakeProposal(listed, d, record).value, d);
    UpdatedRules(d.rules, required);
    RuleKinds(d.rules);
    RuleKinds(after.rules);
    ElevenFollow(Required(d));
    ElevenNames();
    assert Required(after) == required;
    assert Safe(after, REPO);
    EmptyDifference(Items(Contexts(required)));
    ProposalCondition(listed, after, later);
    StartingIsNotEleven();
  }

  lemma EmptyDifference(actual: set<string>)
    requires actual == EXPECTED
    ensures EXPECTED - actual == {} && |actual - EXPECTED| == 0
  {
  }

  lemma StartingIsNotEleven()
    ensures ORIGINAL != EXPECTED
  {
    hide ORIGINAL, EXPECTED;
    ElevenNames();
  }

  // ------------------------------------------------------------------
  // The added names are in string order
  // ------------------------------------------------------------------

  lemma OrderOfLongPrefix()
    ensures LexLess(ADDED[3], ADDED[4])
  {
    hide LexLess;
    var a, b := ADDED[3], ADDED[4];
    assert a[..11] == "Production " == b[..11];
    assert a[11] == 'd' && b[11] == 'e';
    LessAt(a, b, 11);
  }

  lemma OrderOfShortPrefix()
    ensures LexLess(ADDED[2], ADDED[3]) && LexLess(ADDED[5], ADDED[6])
  {
    hide LexLess;
    var a, b := ADDED[2], ADDED[3];
    assert a[0] == 'P' && b[0] == 'P' && a[1] == 'o' && b[1] == 'r';
    LessAt(a, b, 1);
    var c, d := ADDED[5], ADDED[6];
    assert c[0] == 'S' && d[0] == 'S' && c[1] == 'c' && d[1] == 'e';
    LessAt(c, d, 1);
  }

  /** The additions are listed as sorting the missing names lists them. */
  lemma AddedInOrder()
    ensures forall i, j :: 0 <= i && j < |ADDED| && j == i + 1 ==> LexLess(ADDED[i], ADDED[j])
  {
    hide LexLess;
    LessAt(ADDED[0], ADDED[1], 0);
    LessAt(ADDED[1], ADDED[2], 0);
    OrderOfShortPrefix();
    OrderOfLongPrefix();
    LessAt(ADDED[4], ADDED[5], 0);
  }

  // ------------------------------------------------------------------
  // The protocol, against a server that may answer in any way
  // ------------------------------------------------------------------

  datatype ChecksReply = ChecksReply(pr: PullState, runs: seq<CheckRun>)
  datatype RulesetReply = RulesetReply(listed: seq<Listing>, detail: Ruleset)

  datatype Event =
    | GotChecks(checks: Option<ChecksReply>)
    | GotRuleset(ruleset: Option<RulesetReply>)
    | Wrote(proposal: Proposal, accepted: bool)

  /** Every answer may depend on everything that happened before. */
  datatype Server = Server(
    checks: seq<Event> -> Option<ChecksReply>,
    ruleset: seq<Event> -> Option<RulesetReply>,
    put: (seq<Event>, Proposal) -> bool)

  datatype Request = Request(
    pr: int, sha: string, apply: bool, ticket: Option<string>, confirmedId: Option<int>, token: Option<string>)

  datatype Handoff = Handoff(pr: int, sha: string, required: nat, changed: bool, confirmed: bool)

  /** `ticket://`, a letter or digit, and 3 to 99 more characters of its alphabet. */
  predicate IsTicket(t: string) {
    && 13 <= |t| <= 109 && t[..9] == "ticket://" && IsAlnum(t[9])
    && forall i :: 10 <= i < |t| ==> IsAlnum(t[i]) || t[i] in {'.', '_', '/', '-'}
  }

  ghost predicate TicketChar(c: char) {
    ListedAlnum(c) || c == '.' || c == '_' || c == '/' || c == '-'
  }

  /** The scheme, one letter or digit, and a tail over the ticket alphabet. */
  ghost predicate SpellsTicket(t: string) {
    exists head: char, tail: string :: TicketParts(t, head, tail)
  }

  ghost predicate TicketParts(t: string, head: char, tail: string) {
    && t == "ticket://" + [head] + tail && ListedAlnum(head)
    && 3 <= |tail| <= 99 && forall i :: 0 <= i < |tail| ==> TicketChar(tail[i])
  }

  lemma TicketChars(tail: string)
    ensures (forall i :: 0 <= i < |tail| ==> TicketChar(tail[i]))
            <==> forall i :: 0 <= i < |tail| ==> IsAlnum(tail[i]) || tail[i] in {'.', '_', '/', '-'}
  {
    forall c ensures IsAlnum(c) <==> ListedAlnum(c) {
      AlnumListed(c);
    }
    hide IsAlnum, ListedAlnum;
  }

  lemma TicketCut(t: string)
    requires |t| >= 10
    ensures IsTicket(t)
            <==> && t[..9] == "ticket://" && IsAlnum(t[9]) && 3 <= |t[10..]| <= 99
                 && forall i :: 0 <= i < |t[10..]| ==> IsAlnum(t[10..][i]) || t[10..][i] in {'.', '_', '/', '-'}
  {
    hide IsAlnum;
    assert forall i :: 10 <= i < |t| ==> t[i] == t[10..][i - 10];
  }

  lemma TicketGlue(t: string, head: char, tail: string)
    ensures t == "ticket://" + [head] + tail <==> |t| >= 10 && t[..9] == "ticket://" && t[9] == head && t[10..] == tail
  {
    if |t| >= 10 && t[..9] == "ticket://" && t[9] == head && t[10..] == tail {
      assert t == t[..9] + [t[9]] + t[10..];
    }
  }

  lemma TicketIsSpelled(t: string)
    ensures IsTicket(t) <==> SpellsTicket(t)
  {
    if IsTicket(t) {
      TicketCut(t);
      TicketChars(t[10..]);
      AlnumListed(t[9]);
      TicketGlue(t, t[9], t[10..]);
      hide IsTicket, TicketChar, IsAlnum, ListedAlnum;
      assert TicketParts(t, t[9], t[10..]);
    } else if head: char, tail: string :| TicketParts(t, head, tail) {
      TicketGlue(t, head, tail);
      TicketCut(t);
      TicketChars(tail);
      AlnumListed(head);
      assert false;
    }
  }

  ghost predicate Approved(req: Request) {
    req.confirmedId == Some(20842512) && req.ticket.Some? && SpellsTicket(req.ticket.value)
  }

  ghost predicate Admitted(req: Request) {
    req.pr > 0 && (req.apply ==> Approved(req))
  }

  ghost predicate HasToken(req: Request) {
    req.token.Some? && |req.token.value| > 0
  }

  /** The record the preflight derives from one answer. */
  ghost function Preflight(req: Request, e: Event): Option<CheckRecord> {
    if e.GotChecks? && e.checks.Some? then
      var checked := ChecksOf(e.checks.value.pr, e.checks.value.runs, req.pr, req.sha, REPO);
      if checked.Ok? then Some(checked.value) else None
    else None
  }

  ghost function Proposed(e: Event, record: CheckRecord): Result<Proposal> {
    if e.GotRuleset? && e.ruleset.Some?
    then MakeProposal(e.ruleset.value.listed, e.ruleset.value.detail, record) else Refused
  }

  /** The proposal that the first two answers lead to. */
  ghost predicate Previewed(req: Request, es: seq<Event>, p: Proposal) {
    |es| >= 2 && Preflight(req, es[0]).Some? && Proposed(es[1], Preflight(req, es[0]).value) == Ok(p)
  }

  /** The ruleset recheck agrees: the same ruleset and the same proposal. */
  ghost predicate RulesetAgrees(req: Request, es: seq<Event>, p: Proposal) {
    && |es| >= 3 && Previewed(req, es, p)
    && Proposed(es[2], Preflight(req, es[0]).value) == Ok(p)
    && es[2].ruleset.value.detail == es[1].ruleset.value.detail
  }

  /** Both rechecks agree: also the same green outcomes on the still open pull request. */
  ghost predicate FreshlyAgreed(req: Request, es: seq<Event>, p: Proposal) {
    && |es| >= 4 && RulesetAgrees(req, es, p)
    && Preflight(req, es[3]).Some? && Preflight(req, es[3]).value.allGreen
    && Preflight(req, es[3]).value.outcomes == Preflight(req, es[0]).value.outcomes
  }

  ghost predicate ReadBack(e: Event) {
    && e.GotRuleset? && e.ruleset.Some?
    && var after := Evaluate(e.ruleset.value.listed, e.ruleset.value.detail, REPO);
       after.Ok? && after.value.rulesetId == RULESET_ID && after.value.complete
  }

  /** Which kind of exchange may stand at each position. */
  predicate Scripted(es: seq<Event>, apply: bool) {
    && |es| <= (if apply then 6 else 2)
    && forall i :: 0 <= i < |es| ==>
         (es[i].GotChecks? <==> i == 0 || i == 3) && (es[i].Wrote? <==> i == 4)
  }

  /** No write without approval, a token and both rechecks, and then only of the
      agreed proposal. */
  ghost predicate WriteIsGuarded(req: Request, es: seq<Event>) {
    |es| > 4 ==> Approved(req) && HasToken(req) && es[4].Wrote? && FreshlyAgreed(req, es[..4], es[4].proposal)
  }

  /** Every recorded answer is the server's answer at that point of the run. */
  ghost predicate Faithful(server: Server, es: seq<Event>) {
    forall i :: 0 <= i < |es| ==>
      match es[i]
      case GotChecks(checks) => checks == server.checks(es[..i])
      case GotRuleset(ruleset) => ruleset == server.ruleset(es[..i])
      case Wrote(proposal, accepted) => accepted == server.put(es[..i], proposal)
  }

  /** The run goes on exactly as long as nothing speaks against it. */
  ghost predicate Proceeds(req: Request, es: seq<Event>) {
    && (|es| > 0 <==> Admitted(req))
    && (|es| > 1 <==> |es| > 0 && Preflight(req, es[0]).Some?)
    && (|es| > 2 <==> |es| > 1 && req.apply && Proposed(es[1], Preflight(req, es[0]).value).Ok?)
    && (|es| > 3 <==> |es| > 2 && RulesetAgrees(req, es, Proposed(es[1], Preflight(req, es[0]).value).value))
    && (|es| > 4 <==> |es| > 3 && HasToken(req)
                      && FreshlyAgreed(req, es, Proposed(es[1], Preflight(req, es[0]).value).value))
    && (|es| > 5 <==> |es| > 4 && es[4].Wrote? && es[4].accepted)
  }

  ghost predicate Succeeds(req: Request, es: seq<Event>) {
    && Admitted(req) && |es| >= 2 && Preflight(req, es[0]).Some?
    && Proposed(es[1], Preflight(req, es[0]).value).Ok?
    && (req.apply ==> |es| == 6 && es[4].Wrote? && es[4].accepted && ReadBack(es[5]))
  }

  lemma FaithfulPush(server: Server, es: seq<Event>, e: Event)
    requires Faithful(server, es)
    requires match e
             case GotChecks(checks) => checks == server.checks(es)
             case GotRuleset(ruleset) => ruleset == server.ruleset(es)
             case Wrote(proposal, accepted) => accepted == server.put(es, proposal)
    ensures Faithful(server, es + [e])
  {
    var next := es + [e];
    assert next[..|es|] == es;
    assert forall i :: 0 <= i < |es| ==> next[i] == es[i] && next[..i] == es[..i];
  }

  lemma NothingHappened(server: Server)
    ensures Faithful(server, [])
  {
  }

  method FetchChecks(server: Server, req: Request, trace0: seq<Event>)
    returns (record: Option<CheckRecord>, trace: seq<Event>)
    requires Faithful(server, trace0)
    ensures Faithful(server, trace)
    ensures |trace| == |trace0| + 1 && trace[..|trace0|] == trace0
    ensures trace[|trace0|].GotChecks? && record == Preflight(req, trace[|trace0|])
  {
    hide ChecksOf, Faithful;
    var reply := server.checks(trace0);
    FaithfulPush(server, trace0, GotChecks(reply));
    trace := trace0 + [GotChecks(reply)];
    if reply.None? {
      return None, trace;
    }
    var checked := EvaluateChecks(reply.value.pr, reply.value.runs, req.pr, req.sha, REPO);
    record := if checked.Ok? then Some(checked.value) else None;
  }

  /** The two freshness rechecks; the second is made only when the first agrees. */
  method Recheck(server: Server, req: Request, record: CheckRecord, proposal: Proposal, trace0: seq<Event>)
    returns (agreed: bool, trace: seq<Event>)
    requires |trace0| == 2 && Previewed(req, trace0, proposal) && Preflight(req, trace0[0]) == Some(record)
    requires Faithful(server, trace0)
    ensures Faithful(server, trace)
    ensures 3 <= |trace| <= 4 && trace[..2] == trace0
    ensures trace[2].GotRuleset? && (|trace| == 4 ==> trace[3].GotChecks?)
    ensures |trace| == 4 <==> RulesetAgrees(req, trace, proposal)
    ensures agreed ==> |trace| == 4
    ensures agreed <==> FreshlyAgreed(req, trace, proposal)
  {
    hide Preflight, MakeProposal, Faithful;
    var renewed := server.ruleset(trace0);
    FaithfulPush(server, trace0, GotRuleset(renewed));
    trace := trace0 + [GotRuleset(renewed)];
    if renewed.None? || renewed.value.detail != trace0[1].ruleset.value.detail {
      return false, trace;
    }
    var again := MakeProposal(renewed.value.listed, renewed.value.detail, record);
    if again != Ok(proposal) {
      return false, trace;
    }
    var seen;
    seen, trace := FetchChecks(server, req, trace);
    assert trace[..3][..2] == trace0;
    agreed := seen.Some? && seen.value.allGreen && seen.value.outcomes == record.outcomes;
  }

  /** The two tests before anything is fetched. */
  method Admit(req: Request) returns (ok: bool)
    ensures ok <==> Admitted(req)
    ensures ok && req.apply ==> Approved(req)
  {
    hide SpellsTicket, IsTicket;
    if req.pr <= 0 {
      return false;
    }
    if req.apply {
      if req.confirmedId != Some(RULESET_ID) || req.ticket.None? {
        return false;
      }
      TicketIsSpelled(req.ticket.value);
      return IsTicket(req.ticket.value);
    }
    return true;
  }

  /** At most one write, never in a dry run, and only behind every guard; the run
      stops at the first guard that fails and nowhere else, and success means the
      whole script went through. */
  method Execute(server: Server, req: Request) returns (r: Result<Handoff>, trace: seq<Event>)
    ensures Faithful(server, trace) && Scripted(trace, req.apply)
    ensures Proceeds(req, trace) && WriteIsGuarded(req, trace)
    ensures r.Ok? <==> Succeeds(req, trace)
    ensures r.Ok? ==> r.value == Handoff(req.pr, req.sha, if req.apply then 11 else 4, req.apply, req.apply)
  {
    hide Preflight, MakeProposal, Evaluate, Approved, Admitted, Faithful, RulesetAgrees, FreshlyAgreed;
    trace := [];
    NothingHappened(server);
    AgreementNeedsThree(req, trace);
    var admitted := Admit(req);
    if !admitted {
      return Refused, trace;
    }
    var checked;
    checked, trace := FetchChecks(server, req, trace);
    if checked.None? {
      return Refused, trace;
    }
    var record := checked.value;
    var reply := server.ruleset(trace);
    FaithfulPush(server, trace, GotRuleset(reply));
    trace := trace + [GotRuleset(reply)];
    if reply.None? {
      return Refused, trace;
    }
    var proposed := MakeProposal(reply.value.listed, reply.value.detail, record);
    if proposed.Refused? {
      return Refused, trace;
    }
    var proposal := proposed.value;
    if !req.apply {
      return Ok(Handoff(req.pr, req.sha, 4, false, false)), trace;
    }
    ghost var preview := trace;
    var agreed;
    agreed, trace := Recheck(server, req, record, proposal, trace);
    assert trace[0] == preview[0] && trace[1] == preview[1];
    if !agreed || req.token.None? || req.token.value == "" {
      return Refused, trace;
    }
    var accepted := server.put(trace, proposal);
    ghost var before := trace;
    FaithfulPush(server, trace, Wrote(proposal, accepted));
    trace := trace + [Wrote(proposal, accepted)];
    assert trace[..4] == before;
    AgreementStays(req, before, trace, proposal);
    if !accepted {
      return Refused, trace;
    }
    var observed := server.ruleset(trace);
    FaithfulPush(server, trace, GotRuleset(observed));
    trace := trace + [GotRuleset(observed)];
    assert trace[..4] == before;
    AgreementStays(req, before, trace, proposal);
    if observed.None? {
      return Refused, trace;
    }
    var after := Evaluate(observed.value.listed, observed.value.detail, REPO);
    if after.Refused? || after.value.rulesetId != RULESET_ID || !after.value.complete {
      return Refused, trace;
    }
    CompleteIsEleven(observed.value.listed, observed.value.detail);
    var required := after.value.requiredCount;
    return Ok(Handoff(req.pr, req.sha, required, true, required == 11)), trace;
  }

  lemma AgreementNeedsThree(req: Request, es: seq<Event>)
    ensures forall p :: RulesetAgrees(req, es, p) ==> |es| >= 3
  {
  }

  /** Agreement reads the first four exchanges only. */
  lemma AgreementStays(req: Request, before: seq<Event>, after: seq<Event>, p: Proposal)
    requires |before| == 4 && before <= after && FreshlyAgreed(req, before, p)
    ensures FreshlyAgreed(req, after, p) && RulesetAgrees(req, after, p)
  {
    hide Preflight, MakeProposal;
    assert forall i :: 0 <= i < 4 ==> before[i] == after[i];
  }

  /** One server and one request allow exactly one run. */
  lemma RunIsDetermined(server: Server, req: Request, a: seq<Event>, b: seq<Event>)
    requires Faithful(server, a) && Scripted(a, req.apply) && Proceeds(req, a) && WriteIsGuarded(req, a)
    requires Faithful(server, b) && Scripted(b, req.apply) && Proceeds(req, b) && WriteIsGuarded(req, b)
    ensures a == b
  {
    SamePrefix(server, req, a, b, |a|);
    SamePrefix(server, req, a, b, |a| + 1);
    hide *;
    assert a[..|a|] == a && b[..|b|] == b;
  }

  lemma {:induction false} SamePrefix(server: Server, req: Request, a: seq<Event>, b: seq<Event>, k: nat)
    requires Faithful(server, a) && Scripted(a, req.apply) && Proceeds(req, a) && WriteIsGuarded(req, a)
    requires Faithful(server, b) && Scripted(b, req.apply) && Proceeds(req, b) && WriteIsGuarded(req, b)
    ensures |a| >= k <==> |b| >= k
    ensures |a| >= k ==> a[..k] == b[..k]
  {
    hide Preflight, MakeProposal, Proposed, Approved, Admitted;
    if k == 0 {
    } else {
      var i := k - 1;
      SamePrefix(server, req, a, b, i);
      if |a| >= i {
        assert forall j :: 0 <= j < i ==> a[j] == a[..i][j] == b[j];
        assert |a| > i <==> |b| > i;
        if |a| > i {
          assert a[i] == b[i];
          assert a[..k] == a[..i] + [a[i]] && b[..k] == b[..i] + [b[i]];
        }
      }
    }
  }

  /** A complete readback has eleven contexts: the count needs no test of its own. */
  lemma CompleteIsEleven(listed: seq<Listing>, d: Ruleset)
    requires Evaluate(listed, d, REPO).Ok? && Evaluate(listed, d, REPO).value.complete
    ensures Evaluate(listed, d, REPO).value.requiredCount == 11
  {
    hide ADDED, STARTING, Items, Contexts, EXPECTED, ORIGINAL, Protecting, StatusRules, PullRules;
    ElevenNames();
    RuleKinds(d.rules);
    SameSet(EXPECTED, Items(Contexts(StatusRules(d.rules)[0].required)));
  }

  lemma SameSet(a: set<string>, b: set<string>)
    requires a - b == {} && |b - a| == 0
    ensures a == b
  {
    assert b - a == {};
  }

  /** What any run writes would complete the ruleset it was computed from, and a
      readback of exactly that state passes. */
  lemma WriteCompletesRuleset(req: Request, es: seq<Event>)
    requires Scripted(es, req.apply) && WriteIsGuarded(req, es) && |es| > 4
    ensures es[1].GotRuleset? && es[1].ruleset.Some?
    ensures var seen := es[1].ruleset.value;
            var after := Install(es[4].proposal, seen.detail);
            && Evaluate(seen.listed, after, REPO) == Ok(Readback(RULESET_ID, 11, {}, 0, true, true))
            && (forall later :: MakeProposal(seen.listed, after, later).Refused?)
            && ReadBack(GotRuleset(Some(RulesetReply(seen.listed, after))))
  {
    hide MakeProposal, Evaluate, Preflight, Install;
    var first := es[..4];
    assert first[0] == es[0] && first[1] == es[1];
    var seen, record := es[1].ruleset.value, Preflight(req, es[0]).value;
    ProposalCompletes(seen.listed, seen.detail, record, record);
    forall later ensures MakeProposal(seen.listed, Install(es[4].proposal, seen.detail), later).Refused? {
      ProposalCompletes(seen.listed, seen.detail, record, later);
    }
  }

  function Writes(es: seq<Event>): nat {
    if es == [] then 0 else Writes(es[..|es| - 1]) + if es[|es| - 1].Wrote? then 1 else 0
  }

  /** A scripted run holds at most one write, and a dry run none. */
  lemma {:induction false} AtMostOneWrite(es: seq<Event>, apply: bool)
    requires Scripted(es, apply)
    ensures Writes(es) == if |es| > 4 then 1 else 0
    ensures Writes(es) <= if apply then 1 else 0
  {
    if es == [] {
    } else {
      AtMostOneWrite(es[..|es| - 1], apply);
    }
  }
}

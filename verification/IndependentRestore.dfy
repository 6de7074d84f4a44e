/** Restore into a second, disconnected database engine: a bounded readiness loop,
    one restore, read-back comparisons and a guaranteed removal, against an
    environment that may answer every command in any way. */
module IndependentRestore {
  import opened Outcomes
  import opened Tally
  import Evidence = EvidenceArchive

  const READY_ATTEMPTS := 60

  datatype Command =
    | RunContainer | ReadComm | PgIsReady | SelectOne | PgRestore
    | QueryClaims | QueryRevision | QueryLineage(table: string) | QueryDocuments
    | RemoveContainer

  /** Stripped standard output, or a refusal (non-zero exit, timeout, no start). */
  datatype Reply = Output(text: string) | Failed

  datatype Event = Ran(cmd: Command, reply: Reply) | Slept

  /** Any behaviour at all: the answer may depend on everything that happened. */
  type Environment = (seq<Event>, Command) -> Reply

  /** Every recorded reply is the environment's reply at that point of the run. */
  ghost predicate Faithful(env: Environment, trace: seq<Event>) {
    forall i :: 0 <= i < |trace| && trace[i].Ran? ==> trace[i].reply == env(trace[..i], trace[i].cmd)
  }

  lemma FaithfulPush(env: Environment, trace: seq<Event>, e: Event)
    requires Faithful(env, trace) && (e.Ran? ==> e.reply == env(trace, e.cmd))
    ensures Faithful(env, trace + [e])
  {
    var next := trace + [e];
    assert next[..|trace|] == trace;
    assert forall i :: 0 <= i < |trace| ==> next[i] == trace[i] && next[..i] == trace[..i];
  }

  datatype Fingerprint = Fingerprint(rows: nat, digest: string)

  const TABLES: seq<string> :=
    ["documents", "initial_assessments", "assessment_sections", "claim_correspondence",
     "correspondence_review_decisions", "reserve_history", "audit_logs"]

  const REQUIRED_NONEMPTY := {"documents", "initial_assessments", "assessment_sections", "reserve_history"}

  /** What the caller expects, the evidence archive, and the two readers of query
      output: the canonical fingerprint of a table and the document rows. */
  datatype Plan = Plan(
    claimCount: string, revision: string, source: map<string, Fingerprint>,
    fingerprint: string -> Option<Fingerprint>, archive: seq<Evidence.Member>,
    documents: string -> Option<seq<Evidence.Document>>, digest: Evidence.Digest)

  datatype Report = Report(families: nat, rows: nat, documents: nat)

  // ------------------------------------------------------------------
  // Readiness probes
  // ------------------------------------------------------------------

  /** One attempt's commands, stopping at the first that does not look ready. */
  ghost predicate IsAttempt(es: seq<Event>) {
    && 1 <= |es| <= 3
    && es[0].Ran? && es[0].cmd == ReadComm
    && (|es| >= 2 ==> es[0].reply == Output("postgres") && es[1].Ran? && es[1].cmd == PgIsReady)
    && (|es| == 3 ==> es[1].reply.Output? && es[2].Ran? && es[2].cmd == SelectOne)
    && (|es| == 1 ==> es[0].reply != Output("postgres"))
    && (|es| == 2 ==> es[1].reply.Failed?)
  }

  /** The final daemon answered all three: process name, readiness and a query. */
  ghost predicate IsReady(es: seq<Event>) {
    IsAttempt(es) && |es| == 3 && es[2].reply == Output("1")
  }

  /** Attempts with a one-second pause between neighbours. */
  function Woven(attempts: seq<seq<Event>>): seq<Event> {
    if attempts == [] then []
    else if |attempts| == 1 then attempts[0]
    else Woven(attempts[..|attempts| - 1]) + [Slept] + attempts[|attempts| - 1]
  }

  ghost predicate ProbeHistory(attempts: seq<seq<Event>>) {
    && |attempts| <= 60
    && forall i :: 0 <= i < |attempts| ==> IsAttempt(attempts[i])
  }

  /** Two successes in a row end at attempt `i`. */
  ghost predicate ReadyTwice(attempts: seq<seq<Event>>, i: int) {
    0 < i < |attempts| && IsReady(attempts[i - 1]) && IsReady(attempts[i])
  }

  /** One pass of the loop body inside its own exception handler. */
  method Attempt(env: Environment, trace0: seq<Event>) returns (ready: bool, trace: seq<Event>, ghost es: seq<Event>)
    requires Faithful(env, trace0)
    ensures Faithful(env, trace)
    ensures trace == trace0 + es && IsAttempt(es)
    ensures ready <==> IsReady(es)
  {
    hide Faithful;
    var comm := env(trace0, ReadComm);
    FaithfulPush(env, trace0, Ran(ReadComm, comm));
    trace := trace0 + [Ran(ReadComm, comm)];
    es := [Ran(ReadComm, comm)];
    if comm != Output("postgres") {
      return false, trace, es;
    }
    var accepting := env(trace, PgIsReady);
    FaithfulPush(env, trace, Ran(PgIsReady, accepting));
    es := es + [Ran(PgIsReady, accepting)];
    trace := trace + [Ran(PgIsReady, accepting)];
    if accepting.Failed? {
      return false, trace, es;
    }
    var selected := env(trace, SelectOne);
    FaithfulPush(env, trace, Ran(SelectOne, selected));
    es := es + [Ran(SelectOne, selected)];
    trace := trace + [Ran(SelectOne, selected)];
    return selected == Output("1"), trace, es;
  }

  /** At most sixty attempts; ready exactly when two neighbouring attempts succeed,
      and then the second of them is the last command issued. */
  method AwaitReady(env: Environment, trace0: seq<Event>)
    returns (ready: bool, trace: seq<Event>, ghost attempts: seq<seq<Event>>)
    requires Faithful(env, trace0)
    ensures Faithful(env, trace)
    ensures ProbeHistory(attempts) && trace == trace0 + Woven(attempts)
    ensures ready ==> ReadyTwice(attempts, |attempts| - 1)
    ensures forall i :: 0 <= i < |attempts| && ReadyTwice(attempts, i) ==> ready && i == |attempts| - 1
    ensures !ready ==> |attempts| == 60
  {
    hide Faithful, Woven, IsAttempt, IsReady, ReadyTwice, ProbeHistory;
    trace, attempts := trace0, [];
    NoAttempts();
    var consecutive := 0;
    var iteration := 0;
    while iteration < READY_ATTEMPTS
      invariant 0 <= iteration <= READY_ATTEMPTS && |attempts| == iteration && ProbeHistory(attempts)
      invariant Faithful(env, trace)
      invariant trace == trace0 + Woven(attempts) + if 0 < iteration < READY_ATTEMPTS then [Slept] else []
      invariant consecutive == if iteration > 0 && IsReady(attempts[iteration - 1]) then 1 else 0
      invariant forall i :: 0 <= i < |attempts| ==> !ReadyTwice(attempts, i)
    {
      var ok;
      ghost var es;
      ok, trace, es := Attempt(env, trace);
      WovenPush(attempts, es);
      ReadyPush(attempts, es);
      HistoryPush(attempts, es);
      TraceRegroups(trace0, Woven(attempts), if iteration > 0 then [Slept] else [], es);
      attempts := attempts + [es];
      consecutive := if ok then consecutive + 1 else 0;
      if consecutive >= 2 {
        return true, trace, attempts;
      }
      if iteration + 1 < READY_ATTEMPTS {
        FaithfulPush(env, trace, Slept);
        trace := trace + [Slept];
      }
      iteration := iteration + 1;
    }
    return false, trace, attempts;
  }

  lemma NoAttempts()
    ensures ProbeHistory([]) && Woven([]) == []
  {
  }

  lemma HistoryPush(attempts: seq<seq<Event>>, es: seq<Event>)
    requires ProbeHistory(attempts) && |attempts| < READY_ATTEMPTS && IsAttempt(es)
    ensures ProbeHistory(attempts + [es])
  {
    hide IsAttempt;
  }

  lemma TraceRegroups(a: seq<Event>, b: seq<Event>, c: seq<Event>, d: seq<Event>)
    ensures (a + b + c) + d == a + (b + c + d)
  {
  }

  lemma WovenPush(attempts: seq<seq<Event>>, es: seq<Event>)
    ensures Woven(attempts + [es])
         == Woven(attempts) + (if attempts == [] then [] else [Slept]) + es
  {
    assert (attempts + [es])[..|attempts|] == attempts;
  }

  lemma ReadyPush(attempts: seq<seq<Event>>, es: seq<Event>)
    ensures forall i :: 0 <= i < |attempts| ==> (ReadyTwice(attempts + [es], i) <==> ReadyTwice(attempts, i))
    ensures ReadyTwice(attempts + [es], |attempts|)
            <==> attempts != [] && IsReady(attempts[|attempts| - 1]) && IsReady(es)
  {
    hide IsReady;
  }

  // ------------------------------------------------------------------
  // The evidence archive against the restored document rows
  // ------------------------------------------------------------------

  /** The archive extracts, and every restored document row is backed by a member. */
  ghost predicate EvidenceMatches(plan: Plan, text: string) {
    && plan.documents(text).Some?
    && var docs := plan.documents(text).value;
       && 1 <= |docs| <= 5000 && Evidence.DistinctDocuments(docs)
       && Evidence.Extractable(plan.archive) && Evidence.AllBacked(docs, plan.archive, plan.digest)
  }

  /** Restores the archive into a temporary directory and matches the rows. */
  method MatchEvidence(plan: Plan, text: string) returns (matched: Option<nat>)
    ensures matched.Some? <==> EvidenceMatches(plan, text)
    ensures matched.Some? ==> matched.value == |plan.documents(text).value| >= 1
  {
    hide Evidence.DistinctDocuments, Evidence.Extractable, Evidence.AllBacked;
    if plan.documents(text).None? {
      return None;
    }
    var dir := new Evidence.RestoreDir(true, map[]);
    var r := Evidence.RestoreAndReconcile(plan.archive, dir, plan.documents(text).value, plan.digest);
    return if r.Ok? then Some(r.value.documentsMatched) else None;
  }

  // ------------------------------------------------------------------
  // One restore, then the comparisons
  // ------------------------------------------------------------------

  /** Every command after readiness, in order. */
  const SCRIPT: seq<Command> :=
    [PgRestore, QueryClaims, QueryRevision,
     QueryLineage("documents"), QueryLineage("initial_assessments"), QueryLineage("assessment_sections"),
     QueryLineage("claim_correspondence"), QueryLineage("correspondence_review_decisions"),
     QueryLineage("reserve_history"), QueryLineage("audit_logs"),
     QueryDocuments]

  /** The commands issued so far are a prefix of the script. */
  ghost predicate FollowsScript(es: seq<Event>) {
    |es| <= |SCRIPT| && forall i :: 0 <= i < |es| ==> es[i].Ran? && es[i].cmd == SCRIPT[i]
  }

  /** Three of the seven families may have no row. */
  predicate MayBeEmpty(table: string) {
    table == "claim_correspondence" || table == "correspondence_review_decisions" || table == "audit_logs"
  }

  /** The answer for table `k` can be fingerprinted and is not wrongly empty. */
  predicate Readable(plan: Plan, k: nat, reply: Reply)
    requires k < |TABLES|
  {
    && reply.Output? && plan.fingerprint(reply.text).Some?
    && (MayBeEmpty(TABLES[k]) || plan.fingerprint(reply.text).value.rows >= 1)
  }

  predicate ExactFamilies(m: map<string, Fingerprint>) {
    (forall t :: t in m ==> t in TABLES) && (forall t :: t in TABLES ==> t in m)
  }

  predicate AllReadable(plan: Plan, ls: seq<Event>) {
    |ls| == |TABLES| && forall k :: 0 <= k < |ls| ==> ls[k].Ran? && Readable(plan, k, ls[k].reply)
  }

  /** The answer for every table equals the source's fingerprint of that table. */
  ghost predicate LineageMatches(plan: Plan, ls: seq<Event>) {
    && AllReadable(plan, ls)
    && ExactFamilies(plan.source)
    && (forall k :: 0 <= k < |ls| ==> plan.source[TABLES[k]] == plan.fingerprint(ls[k].reply.text).value)
  }

  /** The whole script ran and every answer is the expected one. */
  ghost predicate Reconciled(plan: Plan, es: seq<Event>) {
    && FollowsScript(es) && |es| == |SCRIPT|
    && es[0].reply.Output?
    && es[1].reply == Output(plan.claimCount) && es[2].reply == Output(plan.revision)
    && LineageMatches(plan, es[3..10])
    && es[10].reply.Output? && EvidenceMatches(plan, es[10].reply.text)
  }

  /** The rows of the source's fingerprints. */
  function SourceRows(source: map<string, Fingerprint>, tables: seq<string>): nat {
    if tables == [] then 0
    else
      var n := |tables| - 1;
      SourceRows(source, tables[..n]) + if tables[n] in source then source[tables[n]].rows else 0
  }

  /** The rows that the restored database answered with. */
  ghost function AnsweredRows(plan: Plan): Event -> int {
    (e: Event) =>
      if e.Ran? && e.reply.Output? && plan.fingerprint(e.reply.text).Some?
      then plan.fingerprint(e.reply.text).value.rows else 0
  }

  /** Lists that agree item by item have equal sums. */
  lemma {:induction false} RowsAreAnswered(source: map<string, Fingerprint>, tables: seq<string>, ls: seq<Event>,
                                           rows: Event -> int)
    requires |ls| == |tables|
    requires forall k :: 0 <= k < |ls| ==> tables[k] in source && rows(ls[k]) == source[tables[k]].rows
    ensures SourceRows(source, tables) == Sum(ls, rows)
  {
    if ls == [] {
    } else {
      var n := |ls| - 1;
      RowsAreAnswered(source, tables[..n], ls[..n], rows);
    }
  }

  lemma OneFamily(plan: Plan, ls: seq<Event>, k: nat)
    requires LineageMatches(plan, ls) && k < |ls|
    ensures |ls| == |TABLES| && TABLES[k] in plan.source
    ensures AnsweredRows(plan)(ls[k]) == plan.source[TABLES[k]].rows
  {
    assert Readable(plan, k, ls[k].reply) && TABLES[k] in TABLES;
    hide TABLES;
  }

  /** The published row count is what the seven answers hold. */
  lemma PublishedRows(plan: Plan, es: seq<Event>)
    requires Reconciled(plan, es)
    ensures |es| == 11 && SourceRows(plan.source, TABLES) == Sum(es[3..10], AnsweredRows(plan))
  {
    var ls := es[3..10];
    MatchedLength(plan, ls);
    FamilyCount();
    assert LineageMatches(plan, ls) && |es| == 11;
    hide *;
    forall k | 0 <= k < |ls|
      ensures TABLES[k] in plan.source && AnsweredRows(plan)(ls[k]) == plan.source[TABLES[k]].rows
    {
      OneFamily(plan, ls, k);
    }
    RowsAreAnswered(plan.source, TABLES, ls, AnsweredRows(plan));
  }

  ghost predicate ReadingsOf(plan: Plan, ls: seq<Event>, readings: map<string, Fingerprint>)
    requires AllReadable(plan, ls)
  {
    && ExactFamilies(readings)
    && (forall k :: 0 <= k < |ls| ==> readings[TABLES[k]] == plan.fingerprint(ls[k].reply.text).value)
  }

  /** Reads every family first, then compares all of them with the source. */
  method CollectLineage(env: Environment, plan: Plan, trace0: seq<Event>)
    returns (readings: Option<map<string, Fingerprint>>, trace: seq<Event>, ghost es: seq<Event>)
    requires Faithful(env, trace0)
    ensures Faithful(env, trace)
    ensures trace == trace0 + es && 1 <= |es| <= |TABLES|
    ensures forall i :: 0 <= i < |es| ==> es[i].Ran? && es[i].cmd == QueryLineage(TABLES[i])
    ensures forall i :: 0 <= i < |es| - 1 ==> Readable(plan, i, es[i].reply)
    ensures |es| < |TABLES| ==> !Readable(plan, |es| - 1, es[|es| - 1].reply)
    ensures readings.Some? <==> AllReadable(plan, es)
    ensures readings.Some? ==> |es| == |TABLES|
    ensures readings.Some? ==> ReadingsOf(plan, es, readings.value)
  {
    FamilyCount();
    ReadStart(plan);
    hide Readable, TABLES, REQUIRED_NONEMPTY, Faithful, ReadUpTo, AllReadable, ReadingsOf;
    var collected: map<string, Fingerprint> := map[];
    trace, es := trace0, [];
    var i := 0;
    while i < |TABLES|
      invariant 0 <= i <= |TABLES| && |es| == i && trace == trace0 + es && Faithful(env, trace)
      invariant ReadUpTo(plan, es, collected)
    {
      var table := TABLES[i];
      var reply := env(trace, QueryLineage(table));
      FaithfulPush(env, trace, Ran(QueryLineage(table), reply));
      trace := trace + [Ran(QueryLineage(table), reply)];
      ReadableCases(plan, i, reply);
      if reply.Failed? || plan.fingerprint(reply.text).None?
         || (table in REQUIRED_NONEMPTY && plan.fingerprint(reply.text).value.rows < 1) {
        ReadStop(plan, es, collected, reply);
        es := es + [Ran(QueryLineage(table), reply)];
        return None, trace, es;
      }
      ReadStep(plan, es, collected, reply);
      es := es + [Ran(QueryLineage(table), reply)];
      collected := collected[table := plan.fingerprint(reply.text).value];
      i := i + 1;
    }
    ReadEnd(plan, es, collected);
    return Some(collected), trace, es;
  }

  /** The families asked so far were all readable and are collected. */
  ghost predicate ReadUpTo(plan: Plan, es: seq<Event>, collected: map<string, Fingerprint>) {
    && |es| <= |TABLES|
    && (forall k :: 0 <= k < |es| ==> es[k].Ran? && es[k].cmd == QueryLineage(TABLES[k]))
    && (forall k :: 0 <= k < |es| ==> Readable(plan, k, es[k].reply))
    && (forall t :: t in collected <==> t in TABLES[..|es|])
    && (forall k :: 0 <= k < |es| ==> HasReading(plan, collected, TABLES[k], es[k]))
  }

  predicate HasReading(plan: Plan, collected: map<string, Fingerprint>, table: string, e: Event) {
    && e.Ran? && e.reply.Output? && plan.fingerprint(e.reply.text).Some?
    && table in collected && collected[table] == plan.fingerprint(e.reply.text).value
  }

  lemma ReadStart(plan: Plan)
    ensures ReadUpTo(plan, [], map[])
  {
  }

  lemma ReadKeys(es: seq<Event>, e: Event, collected: map<string, Fingerprint>, f: Fingerprint)
    requires |es| < |TABLES| && (forall t :: t in collected <==> t in TABLES[..|es|])
    ensures var more := collected[TABLES[|es|] := f];
            forall t :: t in more <==> t in TABLES[..|es + [e]|]
  {
    hide TABLES;
    assert TABLES[..|es| + 1] == TABLES[..|es|] + [TABLES[|es|]];
  }

  lemma ReadingStored(plan: Plan, collected: map<string, Fingerprint>, table: string, reply: Reply)
    requires reply.Output? && plan.fingerprint(reply.text).Some?
    ensures HasReading(plan, collected[table := plan.fingerprint(reply.text).value], table,
                       Ran(QueryLineage(table), reply))
  {
  }

  lemma ReadingKept(plan: Plan, collected: map<string, Fingerprint>, table: string, e: Event, other: string,
                    f: Fingerprint)
    requires HasReading(plan, collected, table, e) && other != table
    ensures HasReading(plan, collected[other := f], table, e)
  {
  }

  lemma ReadStep(plan: Plan, es: seq<Event>, collected: map<string, Fingerprint>, reply: Reply)
    requires |es| < |TABLES| && ReadUpTo(plan, es, collected)
    requires Readable(plan, |es|, reply) && reply.Output? && plan.fingerprint(reply.text).Some?
    ensures ReadUpTo(plan, es + [Ran(QueryLineage(TABLES[|es|]), reply)],
                     collected[TABLES[|es|] := plan.fingerprint(reply.text).value])
  {
    TablesDistinct(|es|);
    ReadingStored(plan, collected, TABLES[|es|], reply);
    hide Readable, TABLES, HasReading;
    var e, f := Ran(QueryLineage(TABLES[|es|]), reply), plan.fingerprint(reply.text).value;
    ReadKeys(es, e, collected, f);
    forall k | 0 <= k < |es| ensures HasReading(plan, collected[TABLES[|es|] := f], TABLES[k], es[k]) {
      ReadingKept(plan, collected, TABLES[k], es[k], TABLES[|es|], f);
    }
  }

  lemma ReadStop(plan: Plan, es: seq<Event>, collected: map<string, Fingerprint>, reply: Reply)
    requires |es| < |TABLES| && ReadUpTo(plan, es, collected) && !Readable(plan, |es|, reply)
    ensures var all := es + [Ran(QueryLineage(TABLES[|es|]), reply)];
            && (forall i :: 0 <= i < |all| ==> all[i].Ran? && all[i].cmd == QueryLineage(TABLES[i]))
            && (forall i :: 0 <= i < |all| - 1 ==> Readable(plan, i, all[i].reply))
            && !Readable(plan, |all| - 1, all[|all| - 1].reply)
            && !AllReadable(plan, all)
  {
    hide Readable, TABLES;
    var all := es + [Ran(QueryLineage(TABLES[|es|]), reply)];
    assert all[|es|].reply == reply;
  }

  lemma ReadEnd(plan: Plan, es: seq<Event>, collected: map<string, Fingerprint>)
    requires |es| == |TABLES| && ReadUpTo(plan, es, collected)
    ensures forall i :: 0 <= i < |es| ==> es[i].Ran? && es[i].cmd == QueryLineage(TABLES[i])
    ensures forall i :: 0 <= i < |es| ==> Readable(plan, i, es[i].reply)
    ensures AllReadable(plan, es) && ReadingsOf(plan, es, collected)
  {
    hide Readable, TABLES;
    assert TABLES[..|es|] == TABLES;
  }

  lemma ReadableCases(plan: Plan, k: nat, reply: Reply)
    requires k < |TABLES|
    ensures Readable(plan, k, reply)
            <==> && reply.Output? && plan.fingerprint(reply.text).Some?
                 && !(TABLES[k] in REQUIRED_NONEMPTY && plan.fingerprint(reply.text).value.rows < 1)
  {
  }

  lemma TablesDistinct(i: nat)
    requires i < |TABLES|
    ensures forall k :: 0 <= k < i ==> TABLES[k] != TABLES[i]
  {
    assert |TABLES[0]| == 9 && |TABLES[1]| == 19 && |TABLES[2]| == 19 && |TABLES[3]| == 20;
    assert |TABLES[4]| == 31 && |TABLES[5]| == 15 && |TABLES[6]| == 10;
    assert TABLES[1][0] == 'i' && TABLES[2][0] == 'a';
  }

  lemma TablesOfScript(i: nat)
    requires i < |TABLES|
    ensures SCRIPT[3 + i] == QueryLineage(TABLES[i])
  {
  }

  /** Comparing the readings with the source, family by family. */
  predicate Reconcile(source: map<string, Fingerprint>, readings: map<string, Fingerprint>) {
    && ExactFamilies(source) && ExactFamilies(readings)
    && (forall t :: t in TABLES ==> source[t] == readings[t])
  }

  lemma ReconcileIsMatch(plan: Plan, ls: seq<Event>, readings: map<string, Fingerprint>)
    requires AllReadable(plan, ls) && ReadingsOf(plan, ls, readings)
    ensures Reconcile(plan.source, readings) <==> LineageMatches(plan, ls)
  {
    if LineageMatches(plan, ls) {
      forall t | t in TABLES ensures plan.source[t] == readings[t] {
        var k :| 0 <= k < |TABLES| && TABLES[k] == t;
        assert ls[k].Ran?;
      }
    }
    if Reconcile(plan.source, readings) {
      forall k | 0 <= k < |ls| ensures plan.source[TABLES[k]] == plan.fingerprint(ls[k].reply.text).value {
        assert TABLES[k] in TABLES;
      }
    }
  }

  lemma ScriptGrows(es: seq<Event>, ls: seq<Event>)
    requires FollowsScript(es) && |es| == 3 && |ls| <= |TABLES|
    requires forall i :: 0 <= i < |ls| ==> ls[i].Ran? && ls[i].cmd == QueryLineage(TABLES[i])
    ensures FollowsScript(es + ls)
  {
    var all := es + ls;
    forall i | 3 <= i < |all| ensures all[i].Ran? && all[i].cmd == SCRIPT[i] {
      assert all[i] == ls[i - 3];
      TablesOfScript(i - 3);
    }
  }

  lemma FamilyCount()
    ensures |TABLES| == 7 && |SCRIPT| == 11
  {
  }

  /** The restore succeeded and claim count and revision are the expected ones. */
  ghost predicate HeadOk(plan: Plan, es: seq<Event>) {
    && |es| >= 3 && es[0].Ran? && es[0].reply.Output?
    && es[1].Ran? && es[1].reply == Output(plan.claimCount)
    && es[2].Ran? && es[2].reply == Output(plan.revision)
  }

  /** The one restore, the claim count and the revision. */
  method RestoreHead(env: Environment, plan: Plan, trace0: seq<Event>)
    returns (ok: bool, trace: seq<Event>, ghost es: seq<Event>)
    requires Faithful(env, trace0)
    ensures Faithful(env, trace)
    ensures trace == trace0 + es && FollowsScript(es) && 1 <= |es| <= 3
    ensures |es| > 1 <==> es[0].reply.Output?
    ensures |es| > 2 <==> |es| > 1 && es[1].reply == Output(plan.claimCount)
    ensures ok <==> HeadOk(plan, es)
  {
    hide Faithful;
    var restored := env(trace0, PgRestore);
    FaithfulPush(env, trace0, Ran(PgRestore, restored));
    trace, es := trace0 + [Ran(PgRestore, restored)], [Ran(PgRestore, restored)];
    if restored.Failed? {
      return false, trace, es;
    }
    var claims := env(trace, QueryClaims);
    FaithfulPush(env, trace, Ran(QueryClaims, claims));
    trace, es := trace + [Ran(QueryClaims, claims)], es + [Ran(QueryClaims, claims)];
    if claims != Output(plan.claimCount) {
      return false, trace, es;
    }
    var revision := env(trace, QueryRevision);
    FaithfulPush(env, trace, Ran(QueryRevision, revision));
    trace, es := trace + [Ran(QueryRevision, revision)], es + [Ran(QueryRevision, revision)];
    return revision == Output(plan.revision), trace, es;
  }

  /** What a reconciled script consists of. */
  lemma ReconciledParts(plan: Plan, head: seq<Event>, ls: seq<Event>, tail: seq<Event>)
    requires |head| == 3 || (|head| < 3 && ls == tail == [])
    requires |ls| == |TABLES| || tail == []
    requires |ls| <= |TABLES| && |tail| <= 1 && FollowsScript(head + ls + tail)
    ensures Reconciled(plan, head + ls + tail)
            <==> && HeadOk(plan, head) && LineageMatches(plan, ls) && |tail| == 1 && tail[0].Ran?
                 && tail[0].reply.Output? && EvidenceMatches(plan, tail[0].reply.text)
  {
    FamilyCount();
    MatchedLength(plan, ls);
    hide LineageMatches, TABLES, EvidenceMatches;
    var es := head + ls + tail;
    if |es| == 11 {
      assert es[3..10] == ls && es[10] == tail[0];
      assert es[0] == head[0] && es[1] == head[1] && es[2] == head[2];
    }
  }

  lemma MatchedLength(plan: Plan, ls: seq<Event>)
    ensures LineageMatches(plan, ls) ==> |ls| == |TABLES|
  {
  }

  lemma ScriptEnds(es: seq<Event>, e: Event)
    requires FollowsScript(es) && |es| == 10 && e.Ran? && e.cmd == QueryDocuments
    ensures FollowsScript(es + [e])
  {
  }

  /** Reading the families goes on exactly when family `i - 3` was readable. */
  ghost predicate GoesOn(plan: Plan, es: seq<Event>, i: int) {
    3 <= i < 9 && i < |es| && es[i].Ran? && (|es| > i + 1 <==> Readable(plan, i - 3, es[i].reply))
  }

  /** The script goes on exactly as long as no answer is a surprise; the lineage
      families are compared together, after the last of them was read. */
  ghost predicate Continues(plan: Plan, es: seq<Event>) {
    && FollowsScript(es) && es != []
    && (|es| > 1 <==> es[0].reply.Output?)
    && (|es| > 2 <==> |es| > 1 && es[1].reply == Output(plan.claimCount))
    && (|es| > 3 <==> |es| > 2 && es[2].reply == Output(plan.revision))
    && (forall i :: 3 <= i < 9 && i < |es| ==> GoesOn(plan, es, i))
    && (|es| > 10 <==> |es| >= 10 && LineageMatches(plan, es[3..10]))
  }

  lemma HeadContinues(plan: Plan, head: seq<Event>)
    requires FollowsScript(head) && 1 <= |head| <= 3 && !HeadOk(plan, head)
    requires |head| > 1 <==> head[0].reply.Output?
    requires |head| > 2 <==> |head| > 1 && head[1].reply == Output(plan.claimCount)
    ensures Continues(plan, head)
  {
  }

  lemma LineageContinues(plan: Plan, head: seq<Event>, ls: seq<Event>, tail: seq<Event>)
    requires |head| == 3 && HeadOk(plan, head) && 1 <= |ls| <= |TABLES| && |tail| <= 1
    requires FollowsScript(head + ls + tail)
    requires forall i :: 0 <= i < |ls| ==> ls[i].Ran?
    requires forall i :: 0 <= i < |ls| - 1 ==> Readable(plan, i, ls[i].reply)
    requires |ls| < |TABLES| ==> tail == [] && !Readable(plan, |ls| - 1, ls[|ls| - 1].reply)
    requires |tail| == 1 <==> |ls| == |TABLES| && LineageMatches(plan, ls)
    ensures Continues(plan, head + ls + tail)
  {
    FamilyCount();
    FollowsLength(head + ls + tail);
    hide Readable, LineageMatches, TABLES, SCRIPT, FollowsScript;
    var es := head + ls + tail;
    assert es[0] == head[0] && es[1] == head[1] && es[2] == head[2];
    forall i | 3 <= i < 9 && i < |es| ensures GoesOn(plan, es, i) {
      assert es[i] == ls[i - 3];
    }
    if |es| >= 10 {
      assert es[3..10] == ls;
    }
  }

  lemma FollowsLength(es: seq<Event>)
    requires FollowsScript(es)
    ensures |es| <= 11 && forall i :: 0 <= i < |es| ==> es[i].Ran?
  {
  }

  /** One restore, then every comparison; refuses at the first surprise. */
  method RestoreAndCompare(env: Environment, plan: Plan, trace0: seq<Event>)
    returns (r: Result<Report>, trace: seq<Event>, ghost es: seq<Event>)
    requires Faithful(env, trace0)
    ensures Faithful(env, trace)
    ensures trace == trace0 + es && Continues(plan, es)
    ensures r.Ok? <==> Reconciled(plan, es)
    ensures r.Ok? ==> |es| == 11 && r.value.families == 7
                      && r.value.rows == Sum(es[3..10], AnsweredRows(plan))
                      && EvidenceMatches(plan, es[10].reply.text)
                      && r.value.documents == |plan.documents(es[10].reply.text).value| >= 1
  {
    FamilyCount();
    hide LineageMatches, AllReadable, ExactFamilies, Reconcile, Readable, ReadingsOf, SourceRows, Reconciled,
      FollowsScript, HeadOk, TABLES, SCRIPT, Faithful, Continues, EvidenceMatches, Sum, AnsweredRows;
    ghost var head, ls := [], [];
    var begun;
    begun, trace, head := RestoreHead(env, plan, trace0);
    es := head;
    assert head + [] + [] == head;
    if !begun {
      ReconciledParts(plan, head, [], []);
      HeadContinues(plan, head);
      return Refused, trace, es;
    }
    HeadLength(plan, head);
    var readings;
    readings, trace, ls := CollectLineage(env, plan, trace);
    ScriptGrows(head, ls);
    es := head + ls;
    assert head + ls + [] == es;
    if readings.None? {
      ReconciledParts(plan, head, ls, []);
      UnreadIsNoMatch(plan, ls);
      LineageContinues(plan, head, ls, []);
      return Refused, trace, es;
    }
    ReconcileIsMatch(plan, ls, readings.value);
    if !Reconcile(plan.source, readings.value) {
      ReconciledParts(plan, head, ls, []);
      LineageContinues(plan, head, ls, []);
      return Refused, trace, es;
    }
    var documents := env(trace, QueryDocuments);
    ScriptEnds(es, Ran(QueryDocuments, documents));
    FaithfulPush(env, trace, Ran(QueryDocuments, documents));
    trace, es := trace + [Ran(QueryDocuments, documents)], es + [Ran(QueryDocuments, documents)];
    ReconciledParts(plan, head, ls, [Ran(QueryDocuments, documents)]);
    LineageContinues(plan, head, ls, [Ran(QueryDocuments, documents)]);
    if documents.Failed? {
      return Refused, trace, es;
    }
    var matched := MatchEvidence(plan, documents.text);
    if matched.None? || matched.value < 1 {
      return Refused, trace, es;
    }
    PublishedRows(plan, es);
    return Ok(Report(|TABLES|, SourceRows(plan.source, TABLES), matched.value)), trace, es;
  }

  lemma UnreadIsNoMatch(plan: Plan, ls: seq<Event>)
    ensures LineageMatches(plan, ls) ==> AllReadable(plan, ls)
  {
  }

  lemma HeadLength(plan: Plan, head: seq<Event>)
    ensures HeadOk(plan, head) ==> |head| >= 3
  {
  }

  lemma EmptyScript(plan: Plan)
    ensures FollowsScript([]) && !Reconciled(plan, [])
  {
  }

  lemma ContinuesScript(plan: Plan, es: seq<Event>)
    requires Continues(plan, es)
    ensures FollowsScript(es) && es != []
  {
  }

  lemma NothingRan(env: Environment)
    ensures Faithful(env, [])
  {
  }

  // ------------------------------------------------------------------
  // The whole protocol
  // ------------------------------------------------------------------

  /** Everything a run can do, as one sentence: start, probe, then at most the
      script, and a removal exactly when our own start succeeded. */
  ghost predicate RunShape(plan: Plan, trace: seq<Event>, attempts: seq<seq<Event>>, es: seq<Event>) {
    && trace != [] && trace[0].Ran? && trace[0].cmd == RunContainer
    && (trace[0].reply.Failed? ==> |trace| == 1)
    && (trace[0].reply.Output? ==>
          && (exists reply :: trace == [trace[0]] + Woven(attempts) + es + [Ran(RemoveContainer, reply)])
          && ProbeHistory(attempts) && FollowsScript(es)
          && (es != [] <==> ReadyTwice(attempts, |attempts| - 1))
          && (es != [] ==> Continues(plan, es))
          && (es == [] ==> |attempts| == 60)
          && (forall i :: 0 <= i < |attempts| - 1 ==> !ReadyTwice(attempts, i)))
  }

  /** `guarded` stands for the environment and artifact guards before the start. */
  method RestoreAndVerify(env: Environment, plan: Plan, guarded: bool)
    returns (r: Result<Report>, trace: seq<Event>, ghost attempts: seq<seq<Event>>, ghost es: seq<Event>)
    ensures !guarded ==> r.Refused? && trace == []
    ensures guarded ==> RunShape(plan, trace, attempts, es) && Faithful(env, trace)
    ensures r.Ok? <==> && guarded && trace[0].reply.Output? && Reconciled(plan, es)
                       && trace[|trace| - 1].Ran? && trace[|trace| - 1].reply.Output?
    ensures r.Ok? ==> |es| == 11 && r.value.families == 7 && r.value.rows == Sum(es[3..10], AnsweredRows(plan))
                      && EvidenceMatches(plan, es[10].reply.text)
                      && r.value.documents == |plan.documents(es[10].reply.text).value| >= 1
  {
    hide FollowsScript, ProbeHistory, ReadyTwice, Woven, TABLES, Faithful, Continues, Reconciled,
         EvidenceMatches, Sum, AnsweredRows;
    attempts, es := [], [];
    EmptyScript(plan);
    if !guarded {
      return Refused, [], attempts, es;
    }
    var started := env([], RunContainer);
    NothingRan(env);
    FaithfulPush(env, [], Ran(RunContainer, started));
    trace := [] + [Ran(RunContainer, started)];
    if started.Failed? {
      return Refused, trace, attempts, es;
    }
    var ready;
    ready, trace, attempts := AwaitReady(env, trace);
    var verdict := Refused;
    if ready {
      verdict, trace, es := RestoreAndCompare(env, plan, trace);
      ContinuesScript(plan, es);
    }
    var removed := env(trace, RemoveContainer);
    FaithfulPush(env, trace, Ran(RemoveContainer, removed));
    assert trace == [Ran(RunContainer, started)] + Woven(attempts) + es;
    trace := trace + [Ran(RemoveContainer, removed)];
    r := if removed.Failed? then Refused else verdict;
  }

  // ------------------------------------------------------------------
  // Safety over every run
  // ------------------------------------------------------------------

  lemma {:induction false} WovenOnlyProbes(attempts: seq<seq<Event>>, i: nat)
    requires ProbeHistory(attempts) && i < |Woven(attempts)|
    ensures Woven(attempts)[i].Slept? || Woven(attempts)[i].cmd in {ReadComm, PgIsReady, SelectOne}
  {
    if |attempts| == 1 {
      assert IsAttempt(attempts[0]);
    } else {
      var n := |attempts| - 1;
      assert IsAttempt(attempts[n]);
      if i < |Woven(attempts[..n])| {
        WovenOnlyProbes(attempts[..n], i);
      }
    }
  }

  predicate Issues(e: Event, cmd: Command) {
    e.Ran? && e.cmd == cmd
  }

  lemma ScriptIssuesOnce(es: seq<Event>, i: nat)
    requires FollowsScript(es) && i < |es|
    ensures Issues(es[i], PgRestore) <==> i == 0
    ensures !Issues(es[i], RunContainer) && !Issues(es[i], RemoveContainer)
  {
  }

  /** The two successful probes that end a ready history. */
  lemma ReadyTail(attempts: seq<seq<Event>>)
    requires ReadyTwice(attempts, |attempts| - 1)
    ensures var w, n := Woven(attempts), |attempts|;
            |w| >= 7 && w[|w| - 7..] == attempts[n - 2] + [Slept] + attempts[n - 1]
  {
    var n := |attempts| - 1;
    var front := attempts[..n];
    assert front[|front| - 1] == attempts[n - 1];
    assert |attempts[n]| == 3 && |attempts[n - 1]| == 3;
    assert Woven(front) == (if n == 1 then [] else Woven(front[..n - 1]) + [Slept]) + front[n - 1];
  }

  /** Which event of a started run issues which of the three commands. */
  lemma IssuedWhere(trace: seq<Event>, first: Event, attempts: seq<seq<Event>>, es: seq<Event>, last: Event)
    requires trace == [first] + Woven(attempts) + es + [last]
    requires Issues(first, RunContainer) && Issues(last, RemoveContainer)
    requires ProbeHistory(attempts) && FollowsScript(es)
    ensures forall i :: 0 <= i < |trace| ==>
              && (Issues(trace[i], PgRestore) <==> es != [] && i == 1 + |Woven(attempts)|)
              && (Issues(trace[i], RunContainer) <==> i == 0)
              && (Issues(trace[i], RemoveContainer) <==> i == |trace| - 1)
  {
    hide Woven, ProbeHistory, FollowsScript;
    var w := Woven(attempts);
    forall i | 0 <= i < |trace|
      ensures Issues(trace[i], PgRestore) <==> es != [] && i == 1 + |w|
      ensures Issues(trace[i], RunContainer) <==> i == 0
      ensures Issues(trace[i], RemoveContainer) <==> i == |trace| - 1
    {
      if 0 < i <= |w| {
        WovenOnlyProbes(attempts, i - 1);
        assert trace[i] == w[i - 1];
      } else if |w| < i < |trace| - 1 {
        ScriptIssuesOnce(es, i - 1 - |w|);
        assert trace[i] == es[i - 1 - |w|];
      }
    }
  }

  /** In every run: at most one restore, and it directly follows two successful
      probes of the final daemon separated by one pause; the container is started
      at most once; it is removed exactly when our own start succeeded, once, and
      as the very last command. */
  lemma RunsAreSafe(plan: Plan, trace: seq<Event>, attempts: seq<seq<Event>>, es: seq<Event>)
    requires RunShape(plan, trace, attempts, es)
    ensures forall i :: 0 <= i < |trace| && Issues(trace[i], PgRestore) ==>
              i >= 8 && IsReady(trace[i - 7..i - 4]) && trace[i - 4] == Slept && IsReady(trace[i - 3..i])
    ensures forall i, j :: 0 <= i < j < |trace| ==> !(Issues(trace[i], PgRestore) && Issues(trace[j], PgRestore))
    ensures forall i :: 0 <= i < |trace| ==> (Issues(trace[i], RunContainer) <==> i == 0)
    ensures forall i :: 0 <= i < |trace|
              ==> (Issues(trace[i], RemoveContainer) <==> trace[0].reply.Output? && i == |trace| - 1)
  {
    hide Continues, IsReady, Woven, ProbeHistory, FollowsScript, IsAttempt;
    if trace[0].reply.Output? {
      var reply :| trace == [trace[0]] + Woven(attempts) + es + [Ran(RemoveContainer, reply)];
      var w := Woven(attempts);
      IssuedWhere(trace, trace[0], attempts, es, Ran(RemoveContainer, reply));
      if es != [] {
        ReadyTail(attempts);
        var n := |attempts|;
        ReadyLength(attempts[n - 2]);
        ReadyLength(attempts[n - 1]);
        assert trace[1..1 + |w|] == w;
        RestoreAfterProbes(trace, w, attempts[n - 2], attempts[n - 1]);
      }
    }
  }

  lemma ReadyLength(es: seq<Event>)
    requires IsReady(es)
    ensures |es| == 3
  {
  }

  /** The seven events before the restore are the last seven of the probing. */
  lemma RestoreAfterProbes(trace: seq<Event>, w: seq<Event>, a: seq<Event>, b: seq<Event>)
    requires |w| >= 7 && |a| == |b| == 3 && w[|w| - 7..] == a + [Slept] + b
    requires |trace| > 1 + |w| && trace[1..1 + |w|] == w
    ensures var i := 1 + |w|;
            trace[i - 7..i - 4] == a && trace[i - 4] == Slept && trace[i - 3..i] == b
  {
    var i := 1 + |w|;
    var tail := a + [Slept] + b;
    forall k | 0 <= k < 7 ensures trace[i - 7 + k] == tail[k] {
      assert trace[i - 7 + k] == trace[1..i][|w| - 7 + k] == w[|w| - 7..][k];
    }
    assert forall k :: 0 <= k < 3 ==> tail[k] == a[k] && tail[4 + k] == b[k];
  }
}

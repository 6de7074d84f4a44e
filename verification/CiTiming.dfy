/** Timing read-back of one completed CI run and of a sequential pair of runs.
    Instants and durations are integer ticks; every published figure is a
    duration over the same unit. */
module CiTiming {
  import opened Outcomes
  import opened PyText
  import opened Tally

  const SHARDS := 64

  /** Job names: the shard names are injective in their number. */
  datatype JobName = Shard(n: nat) | Gate | Producer | Classifier | Narrow | OtherJob(text: string)

  datatype StepName = Install | RunShard | Collect | Upload | Download | OtherStep(text: string)

  datatype Conclusion = Success | Skipped | OtherConclusion(text: string)

  /** None: missing, malformed or without a time zone. */
  type Instant = Option<int>

  datatype Step = Step(name: StepName, conclusion: Conclusion, started: Instant, completed: Instant)

  datatype Job = Job(
    name: JobName, id: int, finished: bool, conclusion: Conclusion, ubuntuLatest: bool,
    started: Instant, completed: Instant, steps: Option<seq<Step>>)

  /** `comparable` covers the run-level flags: event, first attempt, status. */
  datatype Snapshot = Snapshot(
    headSha: string, comparable: bool, id: int, created: Instant, jobs: seq<Job>, competing: seq<string>)

  // ------------------------------------------------------------------
  // Durations
  // ------------------------------------------------------------------

  predicate Timed(started: Instant, completed: Instant) {
    started.Some? && completed.Some? && completed.value >= started.value
  }

  function Elapsed(started: Instant, completed: Instant): (d: nat)
    ensures Timed(started, completed) ==> started.value + d == completed.value
    ensures !Timed(started, completed) ==> d == 0
  {
    if Timed(started, completed) then completed.value - started.value else 0
  }

  function JobTime(j: Job): (t: int)
    ensures Timed(j.started, j.completed) ==> j.started.value + t == j.completed.value
  {
    Elapsed(j.started, j.completed)
  }

  function StepTime(s: Step): (t: int)
    ensures Timed(s.started, s.completed) ==> s.started.value + t == s.completed.value
  {
    Elapsed(s.started, s.completed)
  }

  function Steps(j: Job): seq<Step> {
    if j.steps.Some? then j.steps.value else []
  }

  function Named(name: StepName): Step -> bool {
    (s: Step) => s.name == name
  }

  function Matching(steps: seq<Step>, name: StepName): (r: seq<Step>)
    ensures forall s :: s in r <==> s in steps && s.name == name
  {
    Filter(steps, Named(name))
  }

  function AllSteps(jobs: seq<Job>): seq<Step> {
    if jobs == [] then [] else AllSteps(jobs[..|jobs| - 1]) + Steps(jobs[|jobs| - 1])
  }

  lemma MatchingConcat(a: seq<Step>, b: seq<Step>, name: StepName)
    ensures Matching(a + b, name) == Matching(a, name) + Matching(b, name)
  {
    FilterConcat(a, b, Named(name));
  }

  // How many steps of one name a job has, and how long they took.

  function CountIn(name: StepName): Job -> int {
    (j: Job) => |Matching(Steps(j), name)|
  }

  function TimeIn(name: StepName): Job -> int {
    (j: Job) => Sum(Matching(Steps(j), name), StepTime)
  }

  lemma {:induction false} StepsByJob(jobs: seq<Job>, name: StepName)
    ensures |Matching(AllSteps(jobs), name)| == Sum(jobs, CountIn(name))
    ensures Sum(Matching(AllSteps(jobs), name), StepTime) == Sum(jobs, TimeIn(name))
  {
    if jobs == [] {
    } else {
      var n := |jobs| - 1;
      StepsByJob(jobs[..n], name);
      MatchingConcat(AllSteps(jobs[..n]), Steps(jobs[n]), name);
      SumConcat(Matching(AllSteps(jobs[..n]), name), Matching(Steps(jobs[n]), name), StepTime);
    }
  }

  // ------------------------------------------------------------------
  // Acceptance of one run
  // ------------------------------------------------------------------

  predicate ExpectedName(name: JobName, candidate: bool) {
    match name
    case Shard(n) => n < SHARDS
    case Gate => true
    case Classifier => true
    case Narrow => true
    case Producer => candidate
    case OtherJob(_) => false
  }

  predicate JobOk(j: Job) {
    && j.finished && j.conclusion == (if j.name == Narrow then Skipped else Success)
    && (j.name.Shard? || j.name == Producer ==> j.ubuntuLatest)
  }

  predicate ExecutedOk(j: Job, created: int) {
    Timed(j.started, j.completed) && j.started.value >= created
  }

  function RequiredSteps(name: JobName, candidate: bool): seq<StepName> {
    [Install] + if name == Producer then [Collect, Upload]
                else if candidate then [RunShard, Download] else [RunShard]
  }

  /** Exactly one step of the name, successful and inside its job. */
  predicate StepOk(j: Job, name: StepName) {
    var m := Matching(Steps(j), name);
    && Timed(j.started, j.completed)
    && |m| == 1 && m[0].conclusion == Success
    && Timed(m[0].started, m[0].completed)
    && m[0].started.value >= j.started.value && m[0].completed.value <= j.completed.value
  }

  predicate StepsOk(j: Job, candidate: bool) {
    j.steps.Some? && forall name :: name in RequiredSteps(j.name, candidate) ==> StepOk(j, name)
  }

  predicate WasExecuted(j: Job) {
    j.conclusion != Skipped
  }

  function Executed(jobs: seq<Job>): (r: seq<Job>)
    ensures forall j :: j in r <==> j in jobs && j.conclusion != Skipped
  {
    Filter(jobs, WasExecuted)
  }

  ghost predicate DistinctJobs(jobs: seq<Job>) {
    forall i, j :: 0 <= i < j < |jobs| ==> jobs[i].name != jobs[j].name && jobs[i].id != jobs[j].id
  }

  predicate HasJob(jobs: seq<Job>, name: JobName) {
    exists i :: 0 <= i < |jobs| && jobs[i].name == name
  }

  /** The job names are exactly the expected set, each once. */
  ghost predicate NamesOk(jobs: seq<Job>, candidate: bool) {
    && DistinctJobs(jobs)
    && (forall i :: 0 <= i < |jobs| ==> ExpectedName(jobs[i].name, candidate))
    && (forall name :: ExpectedName(name, candidate) ==> HasJob(jobs, name))
  }

  ghost predicate CountedStep(s: Step) {
    s.name in {Install, RunShard, Collect, Upload, Download}
  }

  /** Sixty-four runs and the due installations over all executed jobs. */
  ghost predicate TotalsOk(steps: seq<Step>, candidate: bool) {
    && |Matching(steps, RunShard)| == 64
    && |Matching(steps, Install)| == (if candidate then 65 else 64)
    && (forall s :: s in steps && (s.name == RunShard || s.name == Install) ==> s.conclusion == Success)
    && (forall s :: s in steps && CountedStep(s) ==> Timed(s.started, s.completed))
  }

  ghost predicate Valid(s: Snapshot, sha: string, candidate: bool) {
    && s.headSha == sha && s.comparable && s.created.Some?
    && NamesOk(s.jobs, candidate)
    && (forall i :: 0 <= i < |s.jobs| ==> JobOk(s.jobs[i]))
    && (forall j :: j in Executed(s.jobs) ==> ExecutedOk(j, s.created.value))
    && (forall j :: j in Executed(s.jobs) && (j.name.Shard? || j.name == Producer) ==> StepsOk(j, candidate))
    && TotalsOk(AllSteps(Executed(s.jobs)), candidate)
  }

  // ------------------------------------------------------------------
  // The published figures
  // ------------------------------------------------------------------

  function JobNamed(jobs: seq<Job>, name: JobName): (j: Job)
    requires HasJob(jobs, name)
    ensures j in jobs && j.name == name
  {
    var n := |jobs| - 1;
    if jobs[n].name == name then jobs[n] else JobNamed(jobs[..n], name)
  }

  ghost predicate HasShards(jobs: seq<Job>) {
    forall n: nat :: n < SHARDS ==> HasJob(jobs, Shard(n))
  }

  /** The shard jobs; their order does not matter to any figure. */
  function ShardJobs(jobs: seq<Job>): (r: seq<Job>)
    requires HasShards(jobs)
    ensures |r| == SHARDS && forall n :: 0 <= n < SHARDS ==> r[n] == JobNamed(jobs, Shard(n))
  {
    seq(SHARDS, n requires 0 <= n < SHARDS => JobNamed(jobs, Shard(n)))
  }

  /** The latest completion, and the earliest and latest start, of a list of jobs. */
  function LastCompleted(jobs: seq<Job>): (t: int)
    requires jobs != [] && forall j :: j in jobs ==> j.completed.Some?
    ensures exists j :: j in jobs && j.completed.value == t
    ensures forall j :: j in jobs ==> j.completed.value <= t
  {
    if |jobs| == 1 then jobs[0].completed.value
    else
      var t := LastCompleted(jobs[1..]);
      assert jobs == [jobs[0]] + jobs[1..];
      if jobs[0].completed.value > t then assert jobs[0] in jobs; jobs[0].completed.value else t
  }

  function FirstStart(jobs: seq<Job>): (t: int)
    requires jobs != [] && forall j :: j in jobs ==> j.started.Some?
    ensures exists j :: j in jobs && j.started.value == t
    ensures forall j :: j in jobs ==> j.started.value >= t
  {
    if |jobs| == 1 then jobs[0].started.value
    else
      var t := FirstStart(jobs[1..]);
      assert jobs == [jobs[0]] + jobs[1..];
      if jobs[0].started.value < t then assert jobs[0] in jobs; jobs[0].started.value else t
  }

  function LastStart(jobs: seq<Job>): (t: int)
    requires jobs != [] && forall j :: j in jobs ==> j.started.Some?
    ensures exists j :: j in jobs && j.started.value == t
    ensures forall j :: j in jobs ==> j.started.value <= t
  {
    if |jobs| == 1 then jobs[0].started.value
    else
      var t := LastStart(jobs[1..]);
      assert jobs == [jobs[0]] + jobs[1..];
      if jobs[0].started.value > t then assert jobs[0] in jobs; jobs[0].started.value else t
  }

  datatype Report = Report(
    runId: int, wall: int, shards: int, producer: int, backend: int, executed: int,
    installs: int, combined: int, firstShardDelay: int, producerDone: Option<int>, startSpread: int,
    collection: int, transfer: int, competing: seq<string>)

  /** The required jobs exist and the timed ones can be read. */
  ghost predicate Readable(s: Snapshot, candidate: bool) {
    && s.created.Some? && HasShards(s.jobs) && (candidate ==> HasJob(s.jobs, Producer))
    && (forall j :: j in Executed(s.jobs) ==> Timed(j.started, j.completed))
    && (forall n: nat :: n < SHARDS ==> JobNamed(s.jobs, Shard(n)) in Executed(s.jobs))
    && (candidate ==> JobNamed(s.jobs, Producer) in Executed(s.jobs))
  }

  lemma ValidIsReadable(s: Snapshot, sha: string, candidate: bool)
    requires Valid(s, sha, candidate)
    ensures Readable(s, candidate)
  {
    hide StepsOk, TotalsOk, DistinctJobs;
    forall n: nat | n < SHARDS ensures HasJob(s.jobs, Shard(n)) && JobNamed(s.jobs, Shard(n)) in Executed(s.jobs) {
      assert ExpectedName(Shard(n), candidate);
      NamedIsExecuted(s.jobs, Shard(n));
    }
    if candidate {
      assert ExpectedName(Producer, candidate);
      NamedIsExecuted(s.jobs, Producer);
    }
    hide JobNamed, Executed;
    assert forall j :: j in Executed(s.jobs) ==> ExecutedOk(j, s.created.value);
  }

  lemma NamedIsExecuted(jobs: seq<Job>, name: JobName)
    requires HasJob(jobs, name) && name != Narrow && forall i :: 0 <= i < |jobs| ==> JobOk(jobs[i])
    ensures JobNamed(jobs, name) in Executed(jobs)
  {
    var j := JobNamed(jobs, name);
    var i :| 0 <= i < |jobs| && jobs[i] == j;
    assert JobOk(jobs[i]);
  }

  function Figures(s: Snapshot, candidate: bool): Report
    requires Readable(s, candidate)
  {
    var executed, shards := Executed(s.jobs), ShardJobs(s.jobs);
    assert forall j :: j in shards ==> j in executed;
    assert shards[0] in executed;
    var created := s.created.value;
    var shardTime := Sum(shards, JobTime);
    var producerTime := if candidate then JobTime(JobNamed(s.jobs, Producer)) else 0;
    Report(
      s.id, LastCompleted(executed) - created, shardTime, producerTime, shardTime + producerTime,
      Sum(executed, JobTime), Sum(Matching(AllSteps(executed), Install), StepTime),
      Sum(Matching(AllSteps(executed), RunShard), StepTime), FirstStart(shards) - created,
      if candidate then Some(JobNamed(s.jobs, Producer).completed.value - created) else None,
      LastStart(shards) - FirstStart(shards),
      Sum(Matching(AllSteps(executed), Collect), StepTime),
      Sum(Matching(AllSteps(executed), Upload), StepTime) + Sum(Matching(AllSteps(executed), Download), StepTime),
      s.competing)
  }

  // ------------------------------------------------------------------
  // What each figure means, read off the jobs themselves
  // ------------------------------------------------------------------

  /** The latest completion of the jobs is `t`. */
  ghost predicate EndsAt(jobs: seq<Job>, t: int) {
    && (exists j :: j in jobs && j.completed == Some(t))
    && (forall j :: j in jobs ==> j.completed.Some? && j.completed.value <= t)
  }

  /** The shards among the jobs start no earlier than `first` and no later than
      `last`, and both instants are starts of shards. */
  ghost predicate ShardsStart(jobs: seq<Job>, first: int, last: int) {
    && (exists j :: j in jobs && j.name.Shard? && j.started == Some(first))
    && (exists j :: j in jobs && j.name.Shard? && j.started == Some(last))
    && (forall j :: j in jobs && j.name.Shard? ==> j.started.Some? && first <= j.started.value <= last)
  }

  /** The producer ran for `time` and was done `done` after the dispatch. */
  ghost predicate ProducerRan(jobs: seq<Job>, created: int, time: int, done: int) {
    exists j :: j in jobs && j.name == Producer && j.completed == Some(created + done)
                && j.started == Some(created + done - time)
  }

  ghost function ShardTime(j: Job): int {
    if j.name.Shard? then JobTime(j) else 0
  }

  /** Every published sum, over the executed jobs and their own steps. */
  ghost predicate SumsMean(ran: seq<Job>, r: Report) {
    && r.shards == Sum(ran, ShardTime) && r.backend == r.shards + r.producer
    && r.executed == Sum(ran, JobTime)
    && r.installs == Sum(ran, TimeIn(Install)) && r.combined == Sum(ran, TimeIn(RunShard))
    && r.collection == Sum(ran, TimeIn(Collect))
    && r.transfer == Sum(ran, TimeIn(Upload)) + Sum(ran, TimeIn(Download))
  }

  /** The windows seen from the dispatch, and the producer's own times. */
  ghost predicate WindowsMean(ran: seq<Job>, created: int, candidate: bool, r: Report) {
    && EndsAt(ran, created + r.wall)
    && ShardsStart(ran, created + r.firstShardDelay, created + r.firstShardDelay + r.startSpread)
    && (r.producerDone.Some? <==> candidate)
    && (candidate ==> ProducerRan(ran, created, r.producer, r.producerDone.value))
    && (!candidate ==> r.producer == 0)
  }

  /** Every published figure, as a law about the executed jobs. */
  ghost predicate FiguresMean(s: Snapshot, candidate: bool, r: Report)
    requires s.created.Some?
  {
    && r.runId == s.id && r.competing == s.competing
    && SumsMean(Executed(s.jobs), r) && WindowsMean(Executed(s.jobs), s.created.value, candidate, r)
  }

  // ------------------------------------------------------------------
  // Which job a step belongs to: counting arguments
  // ------------------------------------------------------------------

  /** The jobs that count as backend work. */
  function BackendJobs(jobs: seq<Job>, candidate: bool): seq<Job>
    requires HasShards(jobs) && (candidate ==> HasJob(jobs, Producer))
  {
    ShardJobs(jobs) + if candidate then [JobNamed(jobs, Producer)] else []
  }

  lemma {:induction false} ExecutedDistinct(jobs: seq<Job>)
    requires DistinctJobs(jobs)
    ensures Distinct(Executed(jobs))
  {
    if jobs == [] {
    } else {
      var n := |jobs| - 1;
      ExecutedDistinct(jobs[..n]);
      var front := Executed(jobs[..n]);
      forall k | 0 <= k < |front| ensures front[k] != jobs[n] {
        assert front[k] in jobs[..n];
      }
    }
  }

  lemma UniqueName(jobs: seq<Job>, j: Job)
    requires DistinctJobs(jobs) && j in jobs
    ensures HasJob(jobs, j.name) && JobNamed(jobs, j.name) == j
  {
    var i :| 0 <= i < |jobs| && jobs[i] == j;
    assert HasJob(jobs, j.name);
    var k := JobNamed(jobs, j.name);
    var l :| 0 <= l < |jobs| && jobs[l] == k;
    assert i == l;
  }

  /** The executed jobs are the backend jobs, the classifier and the gate, in
      some order. */
  lemma ExecutedIs(s: Snapshot, sha: string, candidate: bool)
    requires Valid(s, sha, candidate)
    ensures Readable(s, candidate) && HasJob(s.jobs, Classifier) && HasJob(s.jobs, Gate)
    ensures multiset(Executed(s.jobs))
         == multiset(BackendJobs(s.jobs, candidate) + [JobNamed(s.jobs, Classifier), JobNamed(s.jobs, Gate)])
  {
    ValidIsReadable(s, sha, candidate);
    assert ExpectedName(Classifier, candidate) && ExpectedName(Gate, candidate);
    NamedIsExecuted(s.jobs, Classifier);
    NamedIsExecuted(s.jobs, Gate);
    ExecutedDistinct(s.jobs);
    var list := BackendJobs(s.jobs, candidate) + [JobNamed(s.jobs, Classifier), JobNamed(s.jobs, Gate)];
    ListNames(s.jobs, candidate);
    forall j ensures j in Executed(s.jobs) <==> j in list {
      if j in Executed(s.jobs) {
        ExecutedIsListed(s, sha, candidate, j);
      }
      if j in list {
        ListedIsExecuted(s, candidate, j);
      }
    }
    hide *;
    SameItemsSameMultiset(Executed(s.jobs), list);
  }

  lemma ListedIsExecuted(s: Snapshot, candidate: bool, j: Job)
    requires Readable(s, candidate) && HasJob(s.jobs, Classifier) && HasJob(s.jobs, Gate)
    requires JobNamed(s.jobs, Classifier) in Executed(s.jobs) && JobNamed(s.jobs, Gate) in Executed(s.jobs)
    requires j in BackendJobs(s.jobs, candidate) + [JobNamed(s.jobs, Classifier), JobNamed(s.jobs, Gate)]
    ensures j in Executed(s.jobs)
  {
    hide Executed, JobNamed;
    if j in ShardJobs(s.jobs) {
      var n :| 0 <= n < SHARDS && ShardJobs(s.jobs)[n] == j;
    }
  }

  lemma ListNames(jobs: seq<Job>, candidate: bool)
    requires HasShards(jobs) && (candidate ==> HasJob(jobs, Producer))
    requires HasJob(jobs, Classifier) && HasJob(jobs, Gate)
    ensures Distinct(BackendJobs(jobs, candidate) + [JobNamed(jobs, Classifier), JobNamed(jobs, Gate)])
  {
    hide JobNamed, HasJob;
    var list := BackendJobs(jobs, candidate) + [JobNamed(jobs, Classifier), JobNamed(jobs, Gate)];
    assert forall n :: 0 <= n < SHARDS ==> list[n].name == Shard(n);
    assert forall n :: SHARDS <= n < |list| ==> !list[n].name.Shard?;
  }

  lemma ExecutedIsListed(s: Snapshot, sha: string, candidate: bool, j: Job)
    requires Valid(s, sha, candidate) && Readable(s, candidate)
    requires HasJob(s.jobs, Classifier) && HasJob(s.jobs, Gate) && j in Executed(s.jobs)
    ensures j in BackendJobs(s.jobs, candidate) + [JobNamed(s.jobs, Classifier), JobNamed(s.jobs, Gate)]
  {
    hide StepsOk, TotalsOk;
    UniqueName(s.jobs, j);
    var i :| 0 <= i < |s.jobs| && s.jobs[i] == j;
    assert JobOk(s.jobs[i]) && ExpectedName(s.jobs[i].name, candidate);
    var shards := ShardJobs(s.jobs);
    if j.name.Shard? {
      assert shards[j.name.n] == j;
    }
  }

  lemma SplitSum(s: Snapshot, sha: string, candidate: bool, f: Job -> int)
    requires Valid(s, sha, candidate)
    ensures Readable(s, candidate) && HasJob(s.jobs, Classifier) && HasJob(s.jobs, Gate)
    ensures Sum(Executed(s.jobs), f)
         == Sum(BackendJobs(s.jobs, candidate), f) + f(JobNamed(s.jobs, Classifier)) + f(JobNamed(s.jobs, Gate))
    ensures Sum(BackendJobs(s.jobs, candidate), f)
         == Sum(ShardJobs(s.jobs), f) + if candidate then f(JobNamed(s.jobs, Producer)) else 0
  {
    ExecutedIs(s, sha, candidate);
    hide Valid, Readable, JobNamed;
    var backend := BackendJobs(s.jobs, candidate);
    var c, g := JobNamed(s.jobs, Classifier), JobNamed(s.jobs, Gate);
    SumPermute(Executed(s.jobs), backend + [c, g], f);
    SumConcat(backend, [c, g], f);
    SumTwo(c, g, f);
    if candidate {
      SumConcat(ShardJobs(s.jobs), [JobNamed(s.jobs, Producer)], f);
      SumOne(JobNamed(s.jobs, Producer), f);
    } else {
      assert backend == ShardJobs(s.jobs);
    }
  }

  lemma SumOne<T>(x: T, f: T -> int)
    ensures Sum([x], f) == f(x)
  {
    assert [x][..0] == [];
  }

  lemma SumTwo<T>(x: T, y: T, f: T -> int)
    ensures Sum([x, y], f) == f(x) + f(y)
  {
    assert [x, y][..1] == [x];
    SumOne(x, f);
  }

  lemma {:induction false} SumOnes<T>(s: seq<T>, f: T -> int)
    requires forall x :: x in s ==> f(x) == 1
    ensures Sum(s, f) == |s|
  {
    if s == [] {
    } else {
      SumOnes(s[..|s| - 1], f);
    }
  }

  /** One step inside its job takes no longer than the job. */
  lemma StepWithinJob(j: Job, name: StepName)
    requires StepOk(j, name)
    ensures |Matching(Steps(j), name)| == 1
    ensures Sum(Matching(Steps(j), name), StepTime) <= JobTime(j)
  {
    var m := Matching(Steps(j), name);
    assert m == [m[0]];
    SumOne(m[0], StepTime);
  }

  /** Exactly sixty-four runs, one in every shard job, leave none for any other
      job; so the combined steps fit into the shard jobs. */
  lemma CombinedWithinShards(s: Snapshot, sha: string, candidate: bool)
    requires Valid(s, sha, candidate)
    ensures Readable(s, candidate)
    ensures forall j :: j in Executed(s.jobs) ==> CountIn(RunShard)(j) == if j.name.Shard? then 1 else 0
    ensures Figures(s, candidate).combined <= Figures(s, candidate).shards
  {
    ValidIsReadable(s, sha, candidate);
    TotalCounts(s, sha, candidate);
    hide Valid, Sum, CountIn, TimeIn, JobTime, JobNamed, Matching, Executed, AllSteps;
    SplitSum(s, sha, candidate, CountIn(RunShard));
    SplitSum(s, sha, candidate, TimeIn(RunShard));
    StepsByJob(Executed(s.jobs), RunShard);
    ShardsRunOnce(s, sha, candidate);
    NoRuns(JobNamed(s.jobs, Classifier));
    NoRuns(JobNamed(s.jobs, Gate));
    if candidate {
      NoRuns(JobNamed(s.jobs, Producer));
    }
    forall j | j in Executed(s.jobs) ensures CountIn(RunShard)(j) == if j.name.Shard? then 1 else 0 {
      if j.name.Shard? {
        ShardRuns(s, sha, candidate, j);
      } else {
        OtherExecuted(s, sha, candidate, j);
      }
    }
  }

  /** An executed job that is no shard is the classifier, the gate or the producer. */
  lemma OtherExecuted(s: Snapshot, sha: string, candidate: bool, j: Job)
    requires Valid(s, sha, candidate) && j in Executed(s.jobs) && !j.name.Shard?
    ensures HasJob(s.jobs, Classifier) && HasJob(s.jobs, Gate) && (candidate ==> HasJob(s.jobs, Producer))
    ensures j == JobNamed(s.jobs, Classifier) || j == JobNamed(s.jobs, Gate)
            || (candidate && j == JobNamed(s.jobs, Producer))
  {
    hide *;
    ExecutedIs(s, sha, candidate);
    ExecutedIsListed(s, sha, candidate, j);
    ReadableJobs(s, candidate);
    BackendNames(s.jobs, candidate, j);
  }

  lemma ReadableJobs(s: Snapshot, candidate: bool)
    requires Readable(s, candidate)
    ensures s.created.Some? && HasShards(s.jobs) && (candidate ==> HasJob(s.jobs, Producer))
  {
    hide HasShards, HasJob, Executed;
  }

  lemma BackendNames(jobs: seq<Job>, candidate: bool, j: Job)
    requires HasShards(jobs) && (candidate ==> HasJob(jobs, Producer))
    ensures j in BackendJobs(jobs, candidate) ==> j.name.Shard? || (candidate && j == JobNamed(jobs, Producer))
  {
    hide HasShards, HasJob, JobNamed;
  }

  /** The same argument for installations, over shards and producer together. */
  lemma InstallsWithinBackend(s: Snapshot, sha: string, candidate: bool)
    requires Valid(s, sha, candidate)
    ensures Readable(s, candidate)
    ensures forall j :: j in Executed(s.jobs) ==>
              CountIn(Install)(j) == if j.name.Shard? || j.name == Producer then 1 else 0
    ensures Figures(s, candidate).installs <= Figures(s, candidate).backend
  {
    ValidIsReadable(s, sha, candidate);
    TotalCounts(s, sha, candidate);
    hide Valid, Sum, CountIn, TimeIn, JobTime, JobNamed, Matching, Executed, AllSteps;
    SplitSum(s, sha, candidate, CountIn(Install));
    SplitSum(s, sha, candidate, TimeIn(Install));
    SplitSum(s, sha, candidate, JobTime);
    StepsByJob(Executed(s.jobs), Install);
    BackendInstallsOnce(s, sha, candidate);
    NoRuns(JobNamed(s.jobs, Classifier));
    NoRuns(JobNamed(s.jobs, Gate));
    forall j | j in Executed(s.jobs)
      ensures CountIn(Install)(j) == if j.name.Shard? || j.name == Producer then 1 else 0
    {
      if j.name.Shard? || j.name == Producer {
        ShardRuns(s, sha, candidate, j);
      } else {
        OtherExecuted(s, sha, candidate, j);
      }
    }
  }

  lemma TotalCounts(s: Snapshot, sha: string, candidate: bool)
    requires Valid(s, sha, candidate)
    ensures |Matching(AllSteps(Executed(s.jobs)), RunShard)| == SHARDS
    ensures |Matching(AllSteps(Executed(s.jobs)), Install)| == if candidate then SHARDS + 1 else SHARDS
  {
  }

  lemma ShardsRunOnce(s: Snapshot, sha: string, candidate: bool)
    requires Valid(s, sha, candidate) && Readable(s, candidate)
    ensures Sum(ShardJobs(s.jobs), CountIn(RunShard)) == SHARDS
    ensures Sum(ShardJobs(s.jobs), TimeIn(RunShard)) <= Sum(ShardJobs(s.jobs), JobTime)
  {
    var shards := ShardJobs(s.jobs);
    hide Valid, Sum, CountIn, TimeIn, JobTime;
    forall j | j in shards ensures CountIn(RunShard)(j) == 1 && TimeIn(RunShard)(j) <= JobTime(j) {
      ShardRuns(s, sha, candidate, j);
    }
    SumOnes(shards, CountIn(RunShard));
    SumAtMost(shards, TimeIn(RunShard), JobTime);
  }

  lemma BackendInstallsOnce(s: Snapshot, sha: string, candidate: bool)
    requires Valid(s, sha, candidate) && Readable(s, candidate)
    ensures Sum(BackendJobs(s.jobs, candidate), CountIn(Install)) == if candidate then SHARDS + 1 else SHARDS
    ensures Sum(BackendJobs(s.jobs, candidate), TimeIn(Install)) <= Sum(BackendJobs(s.jobs, candidate), JobTime)
  {
    var backend := BackendJobs(s.jobs, candidate);
    hide Valid, Sum, CountIn, TimeIn, JobTime;
    forall j | j in backend ensures CountIn(Install)(j) == 1 && TimeIn(Install)(j) <= JobTime(j) {
      ShardRuns(s, sha, candidate, j);
    }
    SumOnes(backend, CountIn(Install));
    SumAtMost(backend, TimeIn(Install), JobTime);
  }

  lemma NoRuns(j: Job)
    ensures CountIn(RunShard)(j) >= 0 && (CountIn(RunShard)(j) == 0 ==> TimeIn(RunShard)(j) == 0)
    ensures CountIn(Install)(j) >= 0 && (CountIn(Install)(j) == 0 ==> TimeIn(Install)(j) == 0)
  {
  }

  lemma ShardRuns(s: Snapshot, sha: string, candidate: bool, j: Job)
    requires Valid(s, sha, candidate) && j in Executed(s.jobs) && (j.name.Shard? || j.name == Producer)
    ensures j.name.Shard? ==> CountIn(RunShard)(j) == 1 && TimeIn(RunShard)(j) <= JobTime(j)
    ensures CountIn(Install)(j) == 1 && TimeIn(Install)(j) <= JobTime(j)
  {
    hide NamesOk, TotalsOk;
    assert ExecutedOk(j, s.created.value);
    assert StepsOk(j, candidate);
    assert Install in RequiredSteps(j.name, candidate);
    assert j.name.Shard? ==> RunShard in RequiredSteps(j.name, candidate);
    StepWithinJob(j, Install);
    if j.name.Shard? {
      StepWithinJob(j, RunShard);
    }
  }

  // ------------------------------------------------------------------
  // Totals and windows
  // ------------------------------------------------------------------

  /** Executed work is backend work plus the classifier and the gate. */
  lemma ExecutedAddsUp(s: Snapshot, sha: string, candidate: bool)
    requires Valid(s, sha, candidate)
    ensures Readable(s, candidate) && HasJob(s.jobs, Classifier) && HasJob(s.jobs, Gate)
    ensures var f := Figures(s, candidate);
            f.executed == f.backend + JobTime(JobNamed(s.jobs, Classifier)) + JobTime(JobNamed(s.jobs, Gate))
  {
    SplitSum(s, sha, candidate, JobTime);
    hide Valid, Sum, JobNamed, Executed;
  }

  /** Every executed job runs inside the window from dispatch to last completion. */
  lemma JobWithinWindow(s: Snapshot, sha: string, candidate: bool, j: Job)
    requires Valid(s, sha, candidate) && j in Executed(s.jobs)
    ensures Readable(s, candidate)
    ensures s.created.value <= j.started.value <= j.completed.value <= s.created.value + Figures(s, candidate).wall
    ensures 0 <= JobTime(j) <= Figures(s, candidate).wall
  {
    ValidIsReadable(s, sha, candidate);
    assert ExecutedOk(j, s.created.value);
    hide NamesOk, StepsOk, TotalsOk, JobNamed, Executed, Sum;
  }

  /** The first start and the spread of starts fit into the wall time. */
  lemma WindowsFit(s: Snapshot, sha: string, candidate: bool)
    requires Valid(s, sha, candidate)
    ensures Readable(s, candidate)
    ensures var f := Figures(s, candidate);
            0 <= f.firstShardDelay && 0 <= f.startSpread && f.firstShardDelay + f.startSpread <= f.wall
  {
    ShardsWithinWindow(s, sha, candidate);
    var shards := ShardJobs(s.jobs);
    assert shards[0] in shards;
    hide Valid, Sum, Executed, JobTime, JobNamed, ShardJobs, Matching, AllSteps;
    var first, last := FirstStart(shards), LastStart(shards);
    assert first <= shards[0].started.value <= last;
  }

  /** No number of parallel jobs costs more than that many wall times. */
  lemma CostBounded(s: Snapshot, sha: string, candidate: bool)
    requires Valid(s, sha, candidate)
    ensures Readable(s, candidate)
    ensures var f := Figures(s, candidate);
            f.shards <= SHARDS * f.wall && f.backend <= (SHARDS + 1) * f.wall
  {
    ShardsWithinWindow(s, sha, candidate);
    var wall := Figures(s, candidate).wall;
    SumBounded(ShardJobs(s.jobs), wall);
    if candidate {
      JobWithinWindow(s, sha, candidate, JobNamed(s.jobs, Producer));
    }
    hide Valid, Sum, Executed, JobTime, JobNamed, ShardJobs, Matching, AllSteps;
  }

  lemma ShardsWithinWindow(s: Snapshot, sha: string, candidate: bool)
    requires Valid(s, sha, candidate)
    ensures Readable(s, candidate) && 0 <= Figures(s, candidate).wall
    ensures forall j :: j in ShardJobs(s.jobs) ==>
              && j.started.Some? && s.created.value <= j.started.value <= s.created.value + Figures(s, candidate).wall
              && JobTime(j) <= Figures(s, candidate).wall
  {
    ValidIsReadable(s, sha, candidate);
    var shards := ShardJobs(s.jobs);
    assert shards[0] in Executed(s.jobs);
    assert forall n :: 0 <= n < SHARDS ==> shards[n] in Executed(s.jobs);
    assert forall j :: j in Executed(s.jobs) ==> Timed(j.started, j.completed);
    hide *;
    JobWithinWindow(s, sha, candidate, shards[0]);
    forall j | j in shards
      ensures && j.started.Some? && s.created.value <= j.started.value <= s.created.value + Figures(s, candidate).wall
              && JobTime(j) <= Figures(s, candidate).wall
    {
      var n :| 0 <= n < |shards| && shards[n] == j;
      JobWithinWindow(s, sha, candidate, j);
    }
  }

  lemma {:induction false} SumBounded(jobs: seq<Job>, bound: int)
    requires forall j :: j in jobs ==> JobTime(j) <= bound
    ensures Sum(jobs, JobTime) <= |jobs| * bound
  {
    hide JobTime;
    if jobs == [] {
    } else {
      SumBounded(jobs[..|jobs| - 1], bound);
    }
  }

  lemma ShardTimes(shards: seq<Job>)
    requires forall j :: j in shards ==> j.name.Shard?
    ensures Sum(shards, ShardTime) == Sum(shards, JobTime)
  {
    SumAtMost(shards, ShardTime, JobTime);
    SumAtMost(shards, JobTime, ShardTime);
  }

  lemma ShardNames(jobs: seq<Job>)
    requires HasShards(jobs)
    ensures forall j :: j in ShardJobs(jobs) ==> j.name.Shard?
  {
    var shards := ShardJobs(jobs);
    forall j | j in shards ensures j.name.Shard? {
      var n :| 0 <= n < SHARDS && shards[n] == j;
    }
  }

  lemma NoShardTime(jobs: seq<Job>, name: JobName)
    requires HasJob(jobs, name) && !name.Shard?
    ensures ShardTime(JobNamed(jobs, name)) == 0
  {
  }

  lemma ShardSum(s: Snapshot, sha: string, candidate: bool)
    requires Valid(s, sha, candidate)
    ensures Readable(s, candidate) && Sum(Executed(s.jobs), ShardTime) == Sum(ShardJobs(s.jobs), JobTime)
  {
    SplitSum(s, sha, candidate, ShardTime);
    ReadableJobs(s, candidate);
    hide *;
    ShardNames(s.jobs);
    ShardTimes(ShardJobs(s.jobs));
    NoShardTime(s.jobs, Classifier);
    NoShardTime(s.jobs, Gate);
    if candidate {
      NoShardTime(s.jobs, Producer);
    }
  }

  lemma StartsOf(ran: seq<Job>, shards: seq<Job>)
    requires shards != [] && forall j :: j in shards ==> j.started.Some?
    requires forall j :: j in ran && j.name.Shard? <==> j in shards
    ensures ShardsStart(ran, FirstStart(shards), LastStart(shards))
  {
    hide FirstStart, LastStart;
    var first, last := FirstStart(shards), LastStart(shards);
    var a :| a in shards && a.started.value == first;
    var b :| b in shards && b.started.value == last;
    assert a in ran && b in ran && a.started == Some(first) && b.started == Some(last);
  }

  lemma EndOf(ran: seq<Job>)
    requires ran != [] && forall j :: j in ran ==> j.completed.Some?
    ensures EndsAt(ran, LastCompleted(ran))
  {
    hide LastCompleted;
    var t := LastCompleted(ran);
    var a :| a in ran && a.completed.value == t;
    assert a.completed == Some(t);
  }

  /** Which jobs the windows are read from. */
  lemma WindowJobs(s: Snapshot, candidate: bool)
    requires Readable(s, candidate)
    ensures s.created.Some? && HasShards(s.jobs) && Executed(s.jobs) != [] && ShardJobs(s.jobs) != []
    ensures forall j :: j in Executed(s.jobs) ==> j.started.Some? && j.completed.Some?
    ensures forall j :: j in ShardJobs(s.jobs) ==> j.started.Some? && j.name.Shard? && j in Executed(s.jobs)
  {
    var shards := ShardJobs(s.jobs);
    forall j | j in shards ensures j in Executed(s.jobs) && j.name.Shard? {
      var n :| 0 <= n < SHARDS && shards[n] == j;
    }
    assert JobNamed(s.jobs, Shard(0)) in Executed(s.jobs);
    hide Executed, JobNamed, ShardJobs;
  }

  lemma FigureWindows(s: Snapshot, candidate: bool)
    requires Readable(s, candidate)
    requires Executed(s.jobs) != [] && ShardJobs(s.jobs) != []
    requires forall j :: j in Executed(s.jobs) ==> j.completed.Some?
    requires forall j :: j in ShardJobs(s.jobs) ==> j.started.Some?
    requires forall j :: j in Executed(s.jobs) && j.name.Shard? <==> j in ShardJobs(s.jobs)
    ensures var f, created := Figures(s, candidate), s.created.value;
            && EndsAt(Executed(s.jobs), created + f.wall)
            && ShardsStart(Executed(s.jobs), created + f.firstShardDelay, created + f.firstShardDelay + f.startSpread)
  {
    hide Sum, Executed, JobTime, JobNamed, ShardJobs, Matching, AllSteps, LastCompleted, FirstStart, LastStart, EndsAt,
      ShardsStart;
    EndOf(Executed(s.jobs));
    StartsOf(Executed(s.jobs), ShardJobs(s.jobs));
  }

  /** The three windows of a run. */
  lemma WindowLaws(s: Snapshot, sha: string, candidate: bool)
    requires Valid(s, sha, candidate)
    ensures Readable(s, candidate)
    ensures var f, created := Figures(s, candidate), s.created.value;
            && EndsAt(Executed(s.jobs), created + f.wall)
            && ShardsStart(Executed(s.jobs), created + f.firstShardDelay, created + f.firstShardDelay + f.startSpread)
  {
    ValidIsReadable(s, sha, candidate);
    hide *;
    WindowJobs(s, candidate);
    forall j | j in Executed(s.jobs) && j.name.Shard? ensures j in ShardJobs(s.jobs) {
      ExecutedShard(s, sha, candidate, j);
    }
    FigureWindows(s, candidate);
  }

  lemma ExecutedShard(s: Snapshot, sha: string, candidate: bool, j: Job)
    requires Valid(s, sha, candidate) && Readable(s, candidate) && j in Executed(s.jobs) && j.name.Shard?
    ensures j in ShardJobs(s.jobs)
  {
    hide StepsOk, TotalsOk;
    UniqueName(s.jobs, j);
    var i :| 0 <= i < |s.jobs| && s.jobs[i] == j;
    assert ExpectedName(s.jobs[i].name, candidate);
    assert ShardJobs(s.jobs)[j.name.n] == j;
  }

  lemma ProducerOf(jobs: seq<Job>, j: Job, created: int, done: int)
    requires j in jobs && j.name == Producer && Timed(j.started, j.completed) && j.completed == Some(created + done)
    ensures ProducerRan(jobs, created, JobTime(j), done)
  {
    assert j.started == Some(created + done - JobTime(j));
  }

  lemma ProducerFigures(s: Snapshot)
    requires Readable(s, true) && HasJob(s.jobs, Producer)
    requires var j := JobNamed(s.jobs, Producer); j in Executed(s.jobs) && Timed(j.started, j.completed)
    ensures var f := Figures(s, true);
            f.producerDone.Some? && ProducerRan(Executed(s.jobs), s.created.value, f.producer, f.producerDone.value)
  {
    hide Sum, Executed, JobTime, JobNamed, ShardJobs, Matching, AllSteps, LastCompleted, FirstStart, LastStart,
      ProducerRan;
    var j, f := JobNamed(s.jobs, Producer), Figures(s, true);
    ProducerOf(Executed(s.jobs), j, s.created.value, f.producerDone.value);
  }

  lemma ProducerLaw(s: Snapshot)
    requires Readable(s, true)
    ensures var f := Figures(s, true);
            f.producerDone.Some? && ProducerRan(Executed(s.jobs), s.created.value, f.producer, f.producerDone.value)
  {
    ReadableProducer(s);
    hide *;
    ProducerFigures(s);
  }

  lemma ReadableProducer(s: Snapshot)
    requires Readable(s, true)
    ensures HasJob(s.jobs, Producer)
    ensures var j := JobNamed(s.jobs, Producer); j in Executed(s.jobs) && Timed(j.started, j.completed)
  {
    hide Executed, JobNamed, HasShards;
  }

  lemma SumsFor(s: Snapshot, candidate: bool)
    requires Readable(s, candidate) && Sum(Executed(s.jobs), ShardTime) == Sum(ShardJobs(s.jobs), JobTime)
    ensures SumsMean(Executed(s.jobs), Figures(s, candidate))
    ensures Figures(s, candidate).runId == s.id && Figures(s, candidate).competing == s.competing
    ensures Figures(s, candidate).producerDone.Some? <==> candidate
    ensures !candidate ==> Figures(s, candidate).producer == 0
  {
    StepSums(Executed(s.jobs));
    hide Executed, JobNamed, JobTime, StepTime, Sum, Matching, AllSteps, TimeIn, CountIn, ShardJobs, LastCompleted,
      FirstStart, LastStart;
  }

  lemma StepSums(ran: seq<Job>)
    ensures Sum(Matching(AllSteps(ran), Install), StepTime) == Sum(ran, TimeIn(Install))
    ensures Sum(Matching(AllSteps(ran), RunShard), StepTime) == Sum(ran, TimeIn(RunShard))
    ensures Sum(Matching(AllSteps(ran), Collect), StepTime) == Sum(ran, TimeIn(Collect))
    ensures Sum(Matching(AllSteps(ran), Upload), StepTime) == Sum(ran, TimeIn(Upload))
    ensures Sum(Matching(AllSteps(ran), Download), StepTime) == Sum(ran, TimeIn(Download))
  {
    hide *;
    StepsByJob(ran, Install);
    StepsByJob(ran, RunShard);
    StepsByJob(ran, Collect);
    StepsByJob(ran, Upload);
    StepsByJob(ran, Download);
  }

  lemma WindowsFor(s: Snapshot, sha: string, candidate: bool)
    requires Valid(s, sha, candidate) && Readable(s, candidate)
    requires Figures(s, candidate).producerDone.Some? <==> candidate
    requires !candidate ==> Figures(s, candidate).producer == 0
    ensures s.created.Some? && WindowsMean(Executed(s.jobs), s.created.value, candidate, Figures(s, candidate))
  {
    hide Valid, Figures, Executed, EndsAt, ShardsStart, ProducerRan, HasShards;
    WindowLaws(s, sha, candidate);
    if candidate {
      ProducerLaw(s);
    }
  }

  /** The computed figures have their meaning. */
  lemma FiguresFor(s: Snapshot, sha: string, candidate: bool)
    requires Valid(s, sha, candidate)
    ensures Readable(s, candidate) && s.created.Some? && FiguresMean(s, candidate, Figures(s, candidate))
  {
    ValidIsReadable(s, sha, candidate);
    ShardSum(s, sha, candidate);
    SumsFor(s, candidate);
    WindowsFor(s, sha, candidate);
    hide Valid, Readable, Figures, Executed, SumsMean, WindowsMean, Sum;
  }

  // ------------------------------------------------------------------
  // The analyzer
  // ------------------------------------------------------------------

  function JobNames(jobs: seq<Job>): seq<JobName> {
    seq(|jobs|, i requires 0 <= i < |jobs| => jobs[i].name)
  }

  function JobIds(jobs: seq<Job>): seq<int> {
    seq(|jobs|, i requires 0 <= i < |jobs| => jobs[i].id)
  }

  predicate NamesChecked(jobs: seq<Job>, candidate: bool) {
    && |set n | n in JobNames(jobs)| == |jobs| && |set n | n in JobIds(jobs)| == |jobs|
    && (forall i :: 0 <= i < |jobs| ==> ExpectedName(jobs[i].name, candidate))
    && (forall n: nat :: n < SHARDS ==> HasJob(jobs, Shard(n)))
    && HasJob(jobs, Classifier) && HasJob(jobs, Gate) && HasJob(jobs, Narrow) && (candidate ==> HasJob(jobs, Producer))
  }

  lemma NamesCheckIsExact(jobs: seq<Job>, candidate: bool)
    ensures NamesChecked(jobs, candidate) <==> NamesOk(jobs, candidate)
  {
    DistinctBySize(JobNames(jobs));
    DistinctBySize(JobIds(jobs));
    SizesMeanDistinct(jobs);
    hide HasJob, DistinctJobs, Distinct, JobNames, JobIds;
    if NamesOk(jobs, candidate) {
      forall n: nat | n < SHARDS ensures HasJob(jobs, Shard(n)) {
        assert ExpectedName(Shard(n), candidate);
      }
      assert ExpectedName(Classifier, candidate) && ExpectedName(Gate, candidate) && ExpectedName(Narrow, candidate);
      assert candidate ==> ExpectedName(Producer, candidate);
    }
  }

  lemma SizesMeanDistinct(jobs: seq<Job>)
    ensures |JobNames(jobs)| == |JobIds(jobs)| == |jobs|
    ensures Distinct(JobNames(jobs)) && Distinct(JobIds(jobs)) <==> DistinctJobs(jobs)
  {
    assert forall i :: 0 <= i < |jobs| ==> JobNames(jobs)[i] == jobs[i].name && JobIds(jobs)[i] == jobs[i].id;
  }

  method JobsOk(jobs: seq<Job>) returns (ok: bool)
    ensures ok <==> forall i :: 0 <= i < |jobs| ==> JobOk(jobs[i])
  {
    for k := 0 to |jobs|
      invariant forall i :: 0 <= i < k ==> JobOk(jobs[i])
    {
      if !jobs[k].finished || jobs[k].conclusion != (if jobs[k].name == Narrow then Skipped else Success) {
        return false;
      }
      if (jobs[k].name.Shard? || jobs[k].name == Producer) && !jobs[k].ubuntuLatest {
        return false;
      }
    }
    return true;
  }

  method WindowsOk(executed: seq<Job>, created: int) returns (ok: bool)
    ensures ok <==> forall j :: j in executed ==> ExecutedOk(j, created)
  {
    for k := 0 to |executed|
      invariant forall i :: 0 <= i < k ==> ExecutedOk(executed[i], created)
    {
      if executed[k].started.None? || executed[k].started.value < created
         || executed[k].completed.None? || executed[k].completed.value < executed[k].started.value {
        assert !ExecutedOk(executed[k], created);
        return false;
      }
    }
    return true;
  }

  /** The required steps of one job, growing the list as the source does. */
  method RequiredStepsOk(j: Job, candidate: bool) returns (ok: bool)
    requires Timed(j.started, j.completed)
    ensures ok <==> StepsOk(j, candidate)
  {
    if j.steps.None? {
      return false;
    }
    var required := [Install];
    if j.name == Producer {
      required := required + [Collect, Upload];
    } else {
      required := required + [RunShard];
      if candidate {
        required := required + [Download];
      }
    }
    assert required == RequiredSteps(j.name, candidate);
    hide Matching;
    for k := 0 to |required|
      invariant forall i :: 0 <= i < k ==> StepOk(j, required[i])
    {
      var matches := Matching(j.steps.value, required[k]);
      if |matches| != 1 || matches[0].conclusion != Success
         || matches[0].started.None? || matches[0].completed.None?
         || matches[0].completed.value < matches[0].started.value
         || matches[0].started.value < j.started.value || matches[0].completed.value > j.completed.value {
        assert !StepOk(j, required[k]);
        return false;
      }
    }
    return true;
  }

  method BackendStepsOk(executed: seq<Job>, candidate: bool) returns (ok: bool)
    requires forall j :: j in executed ==> Timed(j.started, j.completed)
    ensures ok <==> forall j :: j in executed && (j.name.Shard? || j.name == Producer) ==> StepsOk(j, candidate)
  {
    hide StepsOk;
    for k := 0 to |executed|
      invariant forall i :: 0 <= i < k && (executed[i].name.Shard? || executed[i].name == Producer)
                  ==> StepsOk(executed[i], candidate)
    {
      if executed[k].name.Shard? || executed[k].name == Producer {
        var good := RequiredStepsOk(executed[k], candidate);
        if !good {
          return false;
        }
      }
    }
    return true;
  }

  /** Counts the runs and the installations, and reads the time of every counted step. */
  method TotalsHold(steps: seq<Step>, candidate: bool) returns (ok: bool)
    ensures ok <==> TotalsOk(steps, candidate)
  {
    hide Matching;
    var runs, installs := 0, 0;
    assert steps[..0] == [];
    NoMatches();
    for k := 0 to |steps|
      invariant runs == |Matching(steps[..k], RunShard)| && installs == |Matching(steps[..k], Install)|
      invariant forall i :: 0 <= i < k && (steps[i].name == RunShard || steps[i].name == Install)
                  ==> steps[i].conclusion == Success
      invariant forall i :: 0 <= i < k && CountedStep(steps[i]) ==> Timed(steps[i].started, steps[i].completed)
    {
      MatchOneMore(steps, k, RunShard);
      MatchOneMore(steps, k, Install);
      var s := steps[k];
      if s.name == RunShard {
        runs := runs + 1;
      }
      if s.name == Install {
        installs := installs + 1;
      }
      if (s.name == RunShard || s.name == Install) && s.conclusion != Success {
        assert s in steps;
        return false;
      }
      if (s.name == RunShard || s.name == Install || s.name == Collect || s.name == Upload || s.name == Download)
         && (s.started.None? || s.completed.None? || s.completed.value < s.started.value) {
        assert s in steps && CountedStep(s);
        return false;
      }
    }
    assert steps[..|steps|] == steps;
    return runs == SHARDS && installs == if candidate then SHARDS + 1 else SHARDS;
  }

  lemma NoMatches()
    ensures forall name :: Matching([], name) == []
  {
  }

  lemma MatchOneMore(steps: seq<Step>, k: nat, name: StepName)
    requires k < |steps|
    ensures |Matching(steps[..k + 1], name)| == |Matching(steps[..k], name)| + if steps[k].name == name then 1 else 0
  {
    FilterPush(steps, k, Named(name));
  }

  ghost predicate AllTimed(executed: seq<Job>) {
    forall j :: j in executed ==> Timed(j.started, j.completed)
  }

  lemma WindowsAreTimed(executed: seq<Job>, created: int)
    requires forall j :: j in executed ==> ExecutedOk(j, created)
    ensures AllTimed(executed) && forall j :: j in executed ==> Timed(j.started, j.completed)
  {
  }

  /** Accepts exactly the valid snapshots and publishes their figures. */
  method SummarizeRun(s: Snapshot, sha: string, candidate: bool) returns (r: Result<Report>)
    ensures r.Ok? <==> Valid(s, sha, candidate)
    ensures r.Ok? ==> Readable(s, candidate) && r.value == Figures(s, candidate)
    ensures r.Ok? ==> s.created.Some? && FiguresMean(s, candidate, r.value)
    ensures r.Ok? ==> forall n: nat :: HasJob(s.jobs, Shard(n)) <==> n < 64
  {
    hide *;
    ValidCases(s, sha, candidate);
    if s.headSha != sha || !s.comparable || s.created.None? {
      return Refused;
    }
    NamesCheckIsExact(s.jobs, candidate);
    if !NamesChecked(s.jobs, candidate) {
      return Refused;
    }
    var jobsOk := JobsOk(s.jobs);
    if !jobsOk {
      return Refused;
    }
    var executed := Executed(s.jobs);
    var windowsOk := WindowsOk(executed, s.created.value);
    if !windowsOk {
      return Refused;
    }
    WindowsAreTimed(executed, s.created.value);
    var stepsOk := BackendStepsOk(executed, candidate);
    if !stepsOk {
      return Refused;
    }
    var totalsOk := TotalsHold(AllSteps(executed), candidate);
    if !totalsOk {
      return Refused;
    }
    FiguresFor(s, sha, candidate);
    ShardNumbers(s, sha, candidate);
    return Ok(Figures(s, candidate));
  }

  lemma ShardNumbers(s: Snapshot, sha: string, candidate: bool)
    requires Valid(s, sha, candidate)
    ensures forall n: nat :: HasJob(s.jobs, Shard(n)) <==> n < 64
  {
    hide StepsOk, TotalsOk, DistinctJobs, JobOk, Executed;
    forall n: nat ensures HasJob(s.jobs, Shard(n)) <==> n < 64 {
      assert ExpectedName(Shard(n), candidate) <==> n < SHARDS;
    }
  }

  lemma ValidCases(s: Snapshot, sha: string, candidate: bool)
    ensures Valid(s, sha, candidate)
            <==> && s.headSha == sha && s.comparable && s.created.Some? && NamesOk(s.jobs, candidate)
                 && (forall i :: 0 <= i < |s.jobs| ==> JobOk(s.jobs[i]))
                 && (forall j :: j in Executed(s.jobs) ==> ExecutedOk(j, s.created.value))
                 && (forall j :: j in Executed(s.jobs) && (j.name.Shard? || j.name == Producer) ==>
                       StepsOk(j, candidate))
                 && TotalsOk(AllSteps(Executed(s.jobs)), candidate)
  {
    hide StepsOk, JobOk, NamesOk, Matching, ExecutedOk, Executed, AllSteps;
  }

  // ------------------------------------------------------------------
  // A sequential pair
  // ------------------------------------------------------------------

  /** The pair's source contract: four commit or tree identifiers and two flags. */
  datatype Preflight = Preflight(
    baselineSha: string, candidateSha: string, appTree: string, candidateAppTree: string, matched: bool)

  ghost predicate Identified(p: Preflight) {
    IsHex(p.baselineSha, 40) && IsHex(p.candidateSha, 40) && IsHex(p.appTree, 40) && IsHex(p.candidateAppTree, 40)
  }

  lemma IdentifiedCases(p: Preflight)
    ensures Identified(p)
            <==> && IsHex(p.baselineSha, 40) && IsHex(p.candidateSha, 40)
                 && IsHex(p.appTree, 40) && IsHex(p.candidateAppTree, 40)
  {
  }

  ghost predicate PairAccepted(p: Preflight, baseline: Snapshot, candidate: Snapshot) {
    && Identified(p)
    && p.matched && p.appTree == p.candidateAppTree
    && Valid(baseline, p.baselineSha, false) && Valid(candidate, p.candidateSha, true)
    && baseline.id != candidate.id
    && Readable(baseline, false) && Readable(candidate, true) && Executed(baseline.jobs) != []
    && candidate.created.value >= LastCompleted(Executed(baseline.jobs))
    && Figures(baseline, false).wall > 0 && Figures(baseline, false).backend > 0
  }

  /** In an accepted pair the two runs never overlap: every executed candidate job
      starts no earlier than every executed baseline job ends. */
  lemma PairIsSequential(p: Preflight, baseline: Snapshot, candidate: Snapshot, b: Job, c: Job)
    requires PairAccepted(p, baseline, candidate)
    requires b in Executed(baseline.jobs) && c in Executed(candidate.jobs)
    ensures b.completed.Some? && c.started.Some? && b.completed.value <= c.started.value
  {
    JobWithinWindow(candidate, p.candidateSha, true, c);
    JobWithinWindow(baseline, p.baselineSha, false, b);
    hide Valid, Executed, Figures;
  }

  lemma SomeExecuted(s: Snapshot, sha: string, candidate: bool)
    requires Valid(s, sha, candidate)
    ensures s.created.Some? && Executed(s.jobs) != [] && forall j :: j in Executed(s.jobs) ==> j.completed.Some?
  {
    ValidIsReadable(s, sha, candidate);
    assert JobNamed(s.jobs, Shard(0)) in Executed(s.jobs);
  }

  lemma FiguresAt(s: Snapshot, candidate: bool)
    requires Readable(s, candidate)
    ensures Figures(s, candidate).runId == s.id
  {
    hide JobNamed, Sum, Executed, Matching, AllSteps;
  }

  lemma PairCases(p: Preflight, baseline: Snapshot, candidate: Snapshot)
    ensures PairAccepted(p, baseline, candidate) ==>
              && Identified(p)
              && p.matched && p.appTree == p.candidateAppTree && baseline.id != candidate.id
              && Valid(baseline, p.baselineSha, false) && Valid(candidate, p.candidateSha, true)
    ensures Valid(baseline, p.baselineSha, false) && Valid(candidate, p.candidateSha, true) ==>
              Readable(baseline, false) && Readable(candidate, true)
              && Executed(baseline.jobs) != [] && candidate.created.Some?
              && forall j :: j in Executed(baseline.jobs) ==> j.completed.Some?
    ensures Valid(baseline, p.baselineSha, false) && Valid(candidate, p.candidateSha, true)
            && Identified(p)
            && p.matched && p.appTree == p.candidateAppTree && baseline.id != candidate.id ==>
              (PairAccepted(p, baseline, candidate)
               <==> && candidate.created.value >= LastCompleted(Executed(baseline.jobs))
                    && Figures(baseline, false).wall > 0 && Figures(baseline, false).backend > 0)
  {
    if Valid(baseline, p.baselineSha, false) && Valid(candidate, p.candidateSha, true) {
      SomeExecuted(baseline, p.baselineSha, false);
      SomeExecuted(candidate, p.candidateSha, true);
      ValidIsReadable(baseline, p.baselineSha, false);
      ValidIsReadable(candidate, p.candidateSha, true);
    }
    hide Valid, Readable, Executed, Figures, Identified;
  }

  /** Change of a positive figure in percent: negative exactly for a smaller one. */
  function ChangePercent(before: int, after: int): (p: real)
    requires before > 0 && after >= 0
    ensures p < 0.0 <==> after < before
    ensures p == 0.0 <==> after == before
    ensures p >= -100.0
    ensures before as real * (p + 100.0) == 100.0 * after as real
  {
    var b, a := before as real, after as real;
    var q := a / b;
    QuotientOrder(a, b);
    (q - 1.0) * 100.0
  }

  lemma QuotientOrder(a: real, b: real)
    requires b > 0.0 && a >= 0.0
    ensures a / b >= 0.0 && b * (a / b) == a
    ensures a / b < 1.0 <==> a < b
    ensures a / b == 1.0 <==> a == b
  {
    var q := a / b;
    assert q * b == a;
    SignOfProduct(q, b);
    SignOfProduct(q - 1.0, b);
    assert (q - 1.0) * b == q * b - b;
  }

  datatype PairReport = PairReport(
    baseline: Report, candidate: Report, wallChange: real, costChange: real, isolated: bool)

  lemma FiguresNonNegative(s: Snapshot, sha: string, candidate: bool)
    requires Valid(s, sha, candidate)
    ensures Readable(s, candidate) && Figures(s, candidate).wall >= 0 && Figures(s, candidate).backend >= 0
    ensures Figures(s, candidate).competing == s.competing
  {
    ShardsWithinWindow(s, sha, candidate);
    JobsNonNegative(ShardJobs(s.jobs));
    hide Valid, Sum, Executed, JobNamed, Matching, AllSteps;
  }

  lemma {:induction false} JobsNonNegative(jobs: seq<Job>)
    ensures Sum(jobs, JobTime) >= 0
  {
    if jobs == [] {
    } else {
      JobsNonNegative(jobs[..|jobs| - 1]);
    }
  }

  /** Accepts exactly the sequential pairs over one source contract, and compares
      their wall time and their backend cost. */
  method ComparePair(p: Preflight, baseline: Snapshot, candidate: Snapshot)
    returns (r: Result<PairReport>)
    ensures r.Ok? <==> PairAccepted(p, baseline, candidate)
    ensures r.Ok? ==> r.value.baseline == Figures(baseline, false) && r.value.candidate == Figures(candidate, true)
    ensures r.Ok? ==> FiguresMean(baseline, false, r.value.baseline) && FiguresMean(candidate, true, r.value.candidate)
    ensures r.Ok? ==> (r.value.wallChange < 0.0 <==> r.value.candidate.wall < r.value.baseline.wall)
                      && r.value.baseline.wall as real * (r.value.wallChange + 100.0)
                         == 100.0 * r.value.candidate.wall as real
    ensures r.Ok? ==> (r.value.costChange < 0.0 <==> r.value.candidate.backend < r.value.baseline.backend)
                      && r.value.baseline.backend as real * (r.value.costChange + 100.0)
                         == 100.0 * r.value.candidate.backend as real
    ensures r.Ok? ==> (r.value.isolated <==> baseline.competing == [] && candidate.competing == [])
  {
    hide *;
    PairCases(p, baseline, candidate);
    IdentifiedCases(p);
    if !IsHex(p.baselineSha, 40) || !IsHex(p.candidateSha, 40) || !IsHex(p.appTree, 40)
       || !IsHex(p.candidateAppTree, 40) || !p.matched || p.appTree != p.candidateAppTree {
      return Refused;
    }
    var b := SummarizeRun(baseline, p.baselineSha, false);
    if b.Refused? {
      return Refused;
    }
    var c := SummarizeRun(candidate, p.candidateSha, true);
    if c.Refused? {
      return Refused;
    }
    FiguresAt(baseline, false);
    FiguresAt(candidate, true);
    if b.value.runId == c.value.runId {
      return Refused;
    }
    SomeExecuted(baseline, p.baselineSha, false);
    SomeExecuted(candidate, p.candidateSha, true);
    if candidate.created.value < LastCompleted(Executed(baseline.jobs)) || b.value.wall <= 0 || b.value.backend <= 0 {
      return Refused;
    }
    FiguresNonNegative(baseline, p.baselineSha, false);
    FiguresNonNegative(candidate, p.candidateSha, true);
    return Ok(PairReport(
      b.value, c.value,
      ChangePercent(b.value.wall, c.value.wall), ChangePercent(b.value.backend, c.value.backend),
      b.value.competing == [] && c.value.competing == []));
  }
}

/** Stable assignment of collected test nodes to shards, and the read-back proof
    that all sixty-four shards ran. */
module Sharding {
  import opened Outcomes
  import opened PyText
  import opened Tally

  const SHARD_COUNT := 64

  /** The first eight digest bytes as a number: any function of the node. */
  type NodeHash = string -> nat

  // ------------------------------------------------------------------
  // Assignment and selection
  // ------------------------------------------------------------------

  predicate HasDoubleColon(s: string) {
    |s| >= 2 && (s[..2] == "::" || HasDoubleColon(s[1..]))
  }

  predicate IsNode(s: string) {
    "tests/" <= s && HasDoubleColon(s)
  }

  ghost predicate ColonsAt(s: string, i: int) {
    0 <= i < |s| - 1 && s[i] == ':' && s[i + 1] == ':'
  }

  /** A test node, read letter by letter. */
  ghost predicate NamesTest(s: string) {
    |s| >= 6 && s[..6] == "tests/" && exists i :: ColonsAt(s, i)
  }

  lemma {:induction false} ColonsFound(s: string)
    ensures HasDoubleColon(s) <==> exists i :: ColonsAt(s, i)
  {
    if |s| < 2 {
    } else {
      ColonsFound(s[1..]);
      assert s[..2] == "::" <==> ColonsAt(s, 0);
      forall i ensures ColonsAt(s[1..], i) <==> i >= 0 && ColonsAt(s, i + 1) {}
      if i :| ColonsAt(s, i) {
        assert i == 0 || ColonsAt(s[1..], i - 1);
      }
    }
  }

  lemma NodesNameTests(s: string)
    ensures IsNode(s) <==> NamesTest(s)
  {
    ColonsFound(s);
    hide HasDoubleColon, ColonsAt;
    assert |s| >= 6 ==> ("tests/" <= s <==> s[..6] == "tests/");
  }

  function AssignedShard(node: string, count: int, hash: NodeHash): Result<nat> {
    if !IsNode(node) || count < 1 then Refused else Ok(Slot(node, count, hash))
  }

  function Slot(node: string, count: int, hash: NodeHash): (k: nat)
    requires count >= 1
    ensures k < count && hash(node) == hash(node) / count * count + k
  {
    hash(node) % count
  }

  function KeepNodes(lines: seq<string>): seq<string> {
    Filter(lines, IsNode)
  }

  /** The collected node list, or a refusal when it is empty, unframeable or
      repeats a node. */
  function ParseCollectedNodes(output: string): Result<seq<string>> {
    var nodes := KeepNodes(SplitLines(output));
    if nodes == [] || exists i :: 0 <= i < |nodes| && ('\0' in nodes[i] || '\r' in nodes[i]) then Refused
    else if !Distinct(nodes) then Refused
    else Ok(nodes)
  }

  predicate AllNodes(nodes: seq<string>) {
    forall i :: 0 <= i < |nodes| ==> IsNode(nodes[i])
  }

  function InSlot(shard: nat, count: int, hash: NodeHash): string -> bool
    requires count >= 1
  {
    node => Slot(node, count, hash) == shard
  }

  function Keep(nodes: seq<string>, shard: nat, count: int, hash: NodeHash): seq<string>
    requires count >= 1
  {
    Filter(nodes, InSlot(shard, count, hash))
  }

  function SelectNodes(nodes: seq<string>, shard: int, count: int, hash: NodeHash): Result<seq<string>> {
    if count < 1 || shard < 0 || shard >= count || !AllNodes(nodes) then Refused
    else
      var selected := Keep(nodes, shard, count, hash);
      if selected == [] then Refused else Ok(selected)
  }

  /** What one shard job writes: nodes joined by NUL, and a final NUL. */
  function NulOutput(selected: seq<string>): string {
    JoinWith(selected, '\0') + "\0"
  }

  // ------------------------------------------------------------------
  // The selections partition the list
  // ------------------------------------------------------------------

  /** `part` keeps items of `whole` in their order: `at` gives the positions. */
  ghost predicate Picks(part: seq<string>, whole: seq<string>, at: seq<nat>) {
    && |at| == |part|
    && (forall i :: 0 <= i < |at| ==> at[i] < |whole| && whole[at[i]] == part[i])
    && (forall i, j :: 0 <= i < j < |at| ==> at[i] < at[j])
  }

  lemma KeepMembers(nodes: seq<string>, shard: nat, count: int, hash: NodeHash, x: string)
    requires count >= 1
    ensures x in Keep(nodes, shard, count, hash) <==> x in nodes && Slot(x, count, hash) == shard
  {
    hide Slot;
  }

  lemma PicksShift(part: seq<string>, whole: seq<string>, at: seq<nat>, keepFirst: bool) returns (next: seq<nat>)
    requires whole != [] && Picks(part, whole[1..], at)
    ensures Picks((if keepFirst then [whole[0]] else []) + part, whole, next)
  {
    var shifted := seq(|at|, i requires 0 <= i < |at| => at[i] + 1);
    next := (if keepFirst then [0] else []) + shifted;
  }

  lemma {:induction false} FilterPicks(s: seq<string>, p: string -> bool) returns (at: seq<nat>)
    ensures Picks(Filter(s, p), s, at)
  {
    if s == [] {
      at := [];
    } else {
      at := FilterPicks(s[1..], p);
      FilterCons(s, p);
      hide Picks, Filter;
      at := PicksShift(Filter(s[1..], p), s, at, p(s[0]));
    }
  }

  /** All selections, shard after shard. */
  function Together(nodes: seq<string>, count: int, hash: NodeHash, shards: nat): seq<string>
    requires count >= 1 && shards <= count
  {
    if shards == 0 then [] else Together(nodes, count, hash, shards - 1) + Keep(nodes, shards - 1, count, hash)
  }

  lemma {:induction false} KeepMultiplicity(nodes: seq<string>, shard: nat, count: int, hash: NodeHash, x: string)
    requires count >= 1
    ensures multiset(Keep(nodes, shard, count, hash))[x]
         == if Slot(x, count, hash) == shard then multiset(nodes)[x] else 0
  {
    if nodes == [] {
    } else {
      assert nodes == [nodes[0]] + nodes[1..];
      FilterCons(nodes, InSlot(shard, count, hash));
      KeepMultiplicity(nodes[1..], shard, count, hash, x);
      hide Slot, Filter;
    }
  }

  lemma MultisetOfConcat(a: seq<string>, b: seq<string>, x: string)
    ensures multiset(a + b)[x] == multiset(a)[x] + multiset(b)[x]
  {
  }

  lemma {:induction false} TogetherMultiplicity(nodes: seq<string>, count: int, hash: NodeHash, shards: nat, x: string)
    requires count >= 1 && shards <= count
    ensures multiset(Together(nodes, count, hash, shards))[x]
         == if Slot(x, count, hash) < shards then multiset(nodes)[x] else 0
  {
    hide Keep, Slot;
    if shards == 0 {
    } else {
      var front, last := Together(nodes, count, hash, shards - 1), Keep(nodes, shards - 1, count, hash);
      assert Together(nodes, count, hash, shards) == front + last;
      hide *;
      TogetherMultiplicity(nodes, count, hash, shards - 1, x);
      KeepMultiplicity(nodes, shards - 1, count, hash, x);
      MultisetOfConcat(front, last, x);
    }
  }

  /** For nodes with no empty shard: every selection succeeds and keeps the list's
      order, a node is selected by its assigned shard and by no other, and all
      selections together are the list. An empty shard refuses instead. */
  lemma SelectionsPartition(nodes: seq<string>, count: int, hash: NodeHash)
    requires AllNodes(nodes) && count >= 1
    ensures forall k :: 0 <= k < count ==>
              (SelectNodes(nodes, k, count, hash).Ok?
               <==> exists i :: 0 <= i < |nodes| && Slot(nodes[i], count, hash) == k)
    ensures forall k :: 0 <= k < count && SelectNodes(nodes, k, count, hash).Ok? ==>
              exists at :: Picks(SelectNodes(nodes, k, count, hash).value, nodes, at)
    ensures forall k, x :: 0 <= k < count && SelectNodes(nodes, k, count, hash).Ok? ==>
              (x in SelectNodes(nodes, k, count, hash).value <==> x in nodes && AssignedShard(x, count, hash) == Ok(k))
    ensures multiset(Together(nodes, count, hash, count)) == multiset(nodes)
  {
    forall k | 0 <= k < count
      ensures SelectNodes(nodes, k, count, hash).Ok?
              <==> exists i :: 0 <= i < |nodes| && Slot(nodes[i], count, hash) == k
    {
      ShardOccupied(nodes, k, count, hash);
    }
    forall k | 0 <= k < count ensures exists at :: Picks(Keep(nodes, k, count, hash), nodes, at) {
      hide Picks;
      var at := FilterPicks(nodes, InSlot(k, count, hash));
      assert Picks(Keep(nodes, k, count, hash), nodes, at);
    }
    forall k, x | 0 <= k < count
      ensures x in Keep(nodes, k, count, hash) <==> x in nodes && AssignedShard(x, count, hash) == Ok(k)
    {
      KeepMembers(nodes, k, count, hash, x);
    }
    forall x ensures multiset(Together(nodes, count, hash, count))[x] == multiset(nodes)[x] {
      TogetherMultiplicity(nodes, count, hash, count, x);
    }
  }

  lemma ShardOccupied(nodes: seq<string>, k: nat, count: int, hash: NodeHash)
    requires count >= 1
    ensures Keep(nodes, k, count, hash) != [] <==> exists i :: 0 <= i < |nodes| && Slot(nodes[i], count, hash) == k
  {
    var kept := Keep(nodes, k, count, hash);
    if kept != [] {
      KeepMembers(nodes, k, count, hash, kept[0]);
      assert kept[0] in kept;
      var i :| 0 <= i < |nodes| && nodes[i] == kept[0];
    }
    if i :| 0 <= i < |nodes| && Slot(nodes[i], count, hash) == k {
      KeepMembers(nodes, k, count, hash, nodes[i]);
    }
  }

  /** Reordering the collected list never moves a node to another shard. */
  lemma AssignmentIgnoresOrder(nodes: seq<string>, other: seq<string>, k: nat, count: int, hash: NodeHash)
    requires count >= 1 && k < count && multiset(nodes) == multiset(other)
    ensures multiset(Keep(nodes, k, count, hash)) == multiset(Keep(other, k, count, hash))
    ensures SelectNodes(nodes, k, count, hash).Ok? <==> SelectNodes(other, k, count, hash).Ok?
  {
    forall x ensures multiset(Keep(nodes, k, count, hash))[x] == multiset(Keep(other, k, count, hash))[x] {
      KeepMultiplicity(nodes, k, count, hash, x);
      KeepMultiplicity(other, k, count, hash, x);
    }
    assert |multiset(Keep(nodes, k, count, hash))| == |Keep(nodes, k, count, hash)|;
    assert |multiset(Keep(other, k, count, hash))| == |Keep(other, k, count, hash)|;
    if AllNodes(nodes) { SameNodes(nodes, other); }
    if AllNodes(other) { SameNodes(other, nodes); }
  }

  lemma SameNodes(nodes: seq<string>, other: seq<string>)
    requires multiset(nodes) == multiset(other) && AllNodes(nodes)
    ensures AllNodes(other)
  {
    forall i | 0 <= i < |other| ensures IsNode(other[i]) {
      assert other[i] in multiset(nodes);
      var j :| 0 <= j < |nodes| && nodes[j] == other[i];
    }
  }

  lemma KeptNodesAreFree(nodes: seq<string>, shard: nat, count: int, hash: NodeHash)
    requires count >= 1 && forall i :: 0 <= i < |nodes| ==> '\0' !in nodes[i]
    ensures AllFree(Keep(nodes, shard, count, hash), '\0')
  {
    forall x | x in Keep(nodes, shard, count, hash) ensures Free(x, '\0') {
      KeepMembers(nodes, shard, count, hash, x);
      var i :| 0 <= i < |nodes| && nodes[i] == x;
    }
  }

  /** What a shard job writes splits back into its selection. */
  lemma OutputDecodes(output: string, k: int, count: int, hash: NodeHash)
    requires ParseCollectedNodes(output).Ok?
    requires SelectNodes(ParseCollectedNodes(output).value, k, count, hash).Ok?
    ensures var selected := SelectNodes(ParseCollectedNodes(output).value, k, count, hash).value;
            Unframed(NulOutput(selected), '\0') == selected
  {
    var nodes := ParseCollectedNodes(output).value;
    var selected := SelectNodes(nodes, k, count, hash).value;
    KeptNodesAreFree(nodes, k, count, hash);
    FramedIsJoined(selected, '\0');
    UnframeFramed(selected, '\0');
  }

  lemma KeptAreNodes(lines: seq<string>)
    ensures AllNodes(KeepNodes(lines))
    ensures forall x :: x in KeepNodes(lines) <==> x in lines && NamesTest(x)
    ensures exists at :: Picks(KeepNodes(lines), lines, at)
  {
    forall x ensures IsNode(x) <==> NamesTest(x) {
      NodesNameTests(x);
    }
    var at := FilterPicks(lines, IsNode);
    hide IsNode, NamesTest, Picks;
    forall i | 0 <= i < |KeepNodes(lines)| ensures IsNode(KeepNodes(lines)[i]) {
      assert KeepNodes(lines)[i] in KeepNodes(lines);
    }
  }

  /** What the kept lines say of all lines. */
  lemma KeptSay(lines: seq<string>, p: string -> bool)
    ensures var kept := Filter(lines, p);
            && (kept == [] <==> forall i :: 0 <= i < |lines| ==> !p(lines[i]))
            && ((exists i :: 0 <= i < |kept| && Unframeable(kept[i]))
                <==> exists i :: 0 <= i < |lines| && p(lines[i]) && Unframeable(lines[i]))
  {
    hide Filter, Unframeable;
    var kept := Filter(lines, p);
    FilterSole(lines, p);
    if i :| 0 <= i < |kept| && Unframeable(kept[i]) {
      assert kept[i] in kept;
      var k :| 0 <= k < |lines| && lines[k] == kept[i];
    }
    if i :| 0 <= i < |lines| && p(lines[i]) && Unframeable(lines[i]) {
      assert lines[i] in kept;
      var k :| 0 <= k < |kept| && kept[k] == lines[i];
    }
  }

  ghost predicate Unframeable(x: string) {
    '\0' in x || '\r' in x
  }

  /** A collection is accepted exactly when some line is a test node, no such line
      holds a NUL or a carriage return, and no two of them are equal. */
  lemma CollectedIsExact(output: string)
    ensures var lines := SplitLines(output);
            ParseCollectedNodes(output).Ok?
            <==> && (exists i :: 0 <= i < |lines| && NamesTest(lines[i]))
                 && (forall i :: 0 <= i < |lines| && NamesTest(lines[i]) ==> !Unframeable(lines[i]))
                 && (forall i, j :: 0 <= i < j < |lines| && NamesTest(lines[i]) ==> lines[i] != lines[j])
    ensures ParseCollectedNodes(output).Ok? ==> ParseCollectedNodes(output).value == KeepNodes(SplitLines(output))
  {
    var lines := SplitLines(output);
    forall x ensures IsNode(x) <==> NamesTest(x) {
      NodesNameTests(x);
    }
    KeptSay(lines, IsNode);
    FilterDistinct(lines, IsNode);
    CollectedCases(output);
    hide SplitLines, IsNode, NamesTest, Filter, Unframeable, ParseCollectedNodes;
  }

  lemma CollectedCases(output: string)
    ensures var nodes := Filter(SplitLines(output), IsNode);
            && (ParseCollectedNodes(output).Ok?
                <==> nodes != [] && !(exists i :: 0 <= i < |nodes| && Unframeable(nodes[i])) && Distinct(nodes))
            && (ParseCollectedNodes(output).Ok? ==> ParseCollectedNodes(output).value == nodes)
  {
    hide SplitLines, IsNode, Filter;
  }

  /** A selection succeeds exactly for a shard in range that some node falls to. */
  lemma SelectionIsExact(nodes: seq<string>, shard: int, count: int, hash: NodeHash)
    ensures SelectNodes(nodes, shard, count, hash).Ok?
            <==> && count >= 1 && 0 <= shard < count
                 && (forall i :: 0 <= i < |nodes| ==> NamesTest(nodes[i]))
                 && (exists i :: 0 <= i < |nodes| && Slot(nodes[i], count, hash) == shard)
  {
    forall x ensures IsNode(x) <==> NamesTest(x) {
      NodesNameTests(x);
    }
    hide IsNode, NamesTest, Slot, Keep;
    if count >= 1 && 0 <= shard < count {
      ShardOccupied(nodes, shard, count, hash);
    }
  }

  // ------------------------------------------------------------------
  // The execution proof
  // ------------------------------------------------------------------

  const CLASSIFIER := "Classify backend changes"
  const AGGREGATE := "Backend tests"
  const SHARD_PREFIX := "Backend tests shard "
  const PLACEHOLDER := "Backend tests shard ${{ matrix.shard }}"
  const FULL_STEP := "Verify full backend shards succeeded"
  const SKIP_STEP := "Record workflow-only backend bypass"

  datatype StepRecord = StepRecord(name: string, conclusion: Option<string>)

  /** `matchesRun` covers run, attempt, positive id and finished status. */
  datatype JobRecord = JobRecord(name: string, matchesRun: bool, conclusion: string, steps: Option<seq<StepRecord>>)

  datatype Mode = ScopedSkip | FullPass

  /** The shard number in a job name; leading zeros are accepted. */
  function ShardNumber(name: string): Option<nat> {
    if SHARD_PREFIX <= name && Digits(name[|SHARD_PREFIX|..]) then Some(DecimalValue(name[|SHARD_PREFIX|..])) else None
  }

  /** The number is what follows the shard prefix, printed in decimal. */
  lemma ShardNumberIs(name: string, k: nat)
    ensures ShardNumber(name) == Some(k)
            <==> exists digits :: name == "Backend tests shard " + digits && Prints(digits, k)
  {
    if SHARD_PREFIX <= name {
      var digits := name[|SHARD_PREFIX|..];
      DigitsPrint(digits, k);
      hide Digits, DecimalValue, Prints;
      assert name == SHARD_PREFIX + digits;
      forall other | name == "Backend tests shard " + other ensures other == digits {}
    }
  }

  predicate Succeeded(j: JobRecord) {
    j.conclusion == "success"
  }

  predicate IsShardLike(j: JobRecord) {
    && j.name != "Classify backend changes" && j.name != "Backend tests"
    && (ShardNumber(j.name).Some? || j.name == "Backend tests shard ${{ matrix.shard }}")
  }

  predicate IsClassifier(j: JobRecord) { j.name == "Classify backend changes" }

  predicate IsAggregate(j: JobRecord) { j.name == "Backend tests" }

  function WithName(name: string): StepRecord -> bool {
    (s: StepRecord) => s.name == name
  }

  function StepsNamed(steps: seq<StepRecord>, name: string): seq<StepRecord> {
    Filter(steps, WithName(name))
  }

  /** The one step of the name, or a refusal. */
  function StepConclusion(j: JobRecord, name: string): Result<Option<string>> {
    if j.steps.None? || |StepsNamed(j.steps.value, name)| != 1 then Refused
    else Ok(StepsNamed(j.steps.value, name)[0].conclusion)
  }

  /** Exactly one step has the name, and this is its conclusion. */
  ghost predicate OneStep(j: JobRecord, name: string, conclusion: Option<string>) {
    && j.steps.Some?
    && exists i :: 0 <= i < |j.steps.value| && SoleStep(j.steps.value, i, name)
                   && j.steps.value[i].conclusion == conclusion
  }

  ghost predicate SoleStep(steps: seq<StepRecord>, i: nat, name: string)
    requires i < |steps|
  {
    forall k :: 0 <= k < |steps| ==> (steps[k].name == name <==> k == i)
  }

  lemma StepIsSole(j: JobRecord, name: string, conclusion: Option<string>)
    ensures StepConclusion(j, name) == Ok(conclusion) <==> OneStep(j, name, conclusion)
  {
    if j.steps.Some? {
      var steps := j.steps.value;
      FilterSole(steps, WithName(name));
      hide Filter;
      forall i | 0 <= i < |steps| ensures SoleStep(steps, i, name) <==> Sole(steps, i, WithName(name)) {
        assert forall k :: 0 <= k < |steps| ==> (WithName(name)(steps[k]) <==> steps[k].name == name);
      }
      if i :| Sole(steps, i, WithName(name)) {
        assert SoleStep(steps, i, name);
      }
    }
  }

  predicate Recognized(j: JobRecord) {
    j.matchesRun && (IsClassifier(j) || IsAggregate(j) || IsShardLike(j))
  }

  /** The two steps of the aggregate that tell a full run from a bypass. */
  ghost predicate StepsSay(j: JobRecord, full: Option<string>, skip: Option<string>) {
    && OneStep(j, "Verify full backend shards succeeded", full)
    && OneStep(j, "Record workflow-only backend bypass", skip)
  }

  /** What both verdicts need: known jobs, one successful classifier, and one
      successful aggregate whose two steps read `full` and `skip`. */
  ghost predicate Framed(jobs: seq<JobRecord>, full: string, skip: string) {
    && (forall i :: 0 <= i < |jobs| ==> Recognized(jobs[i]))
    && |Filter(jobs, IsClassifier)| == 1 && Filter(jobs, IsClassifier)[0].conclusion == "success"
    && |Filter(jobs, IsAggregate)| == 1 && Filter(jobs, IsAggregate)[0].conclusion == "success"
    && StepsSay(Filter(jobs, IsAggregate)[0], Some(full), Some(skip))
  }

  ghost predicate SkipEvidence(jobs: seq<JobRecord>) {
    var shards := Filter(jobs, IsShardLike);
    && Framed(jobs, "skipped", "success")
    && |shards| == 1 && shards[0].name == "Backend tests shard ${{ matrix.shard }}" && shards[0].conclusion == "skipped"
  }

  /** A successful job for shard `k`. */
  ghost predicate RunsShard(j: JobRecord, k: nat) {
    j.conclusion == "success" && ShardNumber(j.name) == Some(k)
  }

  ghost predicate NumberedSuccess(j: JobRecord) {
    j.conclusion == "success" && ShardNumber(j.name).Some? && ShardNumber(j.name).value < 64
  }

  function Below(n: nat): (ks: set<nat>)
    ensures |ks| == n
    ensures forall k: nat :: k in ks <==> k < n
  {
    if n == 0 then {}
    else
      var last: nat := n - 1;
      Below(last) + {last}
  }

  predicate SeenBefore(shards: seq<JobRecord>, i: nat, n: nat)
    requires i <= |shards|
  {
    exists k :: 0 <= k < i && ShardNumber(shards[k].name) == Some(n)
  }

  /** Every shard-like job succeeded with its own number below sixty-four, and
      every number is there. */
  ghost predicate AllShardsRan(shards: seq<JobRecord>) {
    && (forall i :: 0 <= i < |shards| ==> NumberedSuccess(shards[i]))
    && (forall i, j :: 0 <= i < j < |shards| ==> ShardNumber(shards[i].name) != ShardNumber(shards[j].name))
    && (forall k :: 0 <= k < 64 ==> SeenBefore(shards, |shards|, k))
  }

  ghost predicate FullEvidence(jobs: seq<JobRecord>) {
    Framed(jobs, "success", "skipped") && AllShardsRan(Filter(jobs, IsShardLike))
  }

  /** The second loop: the shard numbers seen, each new and in range. */
  method ShardsRan(shards: seq<JobRecord>) returns (ok: bool)
    ensures ok <==> AllShardsRan(shards)
    ensures ok ==> |shards| == 64
  {
    hide ShardNumber, Below, RanSoFar, AllShardsRan;
    var seen: set<nat> := {};
    NothingRan(shards);
    for i := 0 to |shards|
      invariant RanSoFar(shards, i, seen) && |seen| == i
    {
      var number := ShardNumber(shards[i].name);
      if number.None? || !Succeeded(shards[i]) {
        UnnumberedFails(shards, i);
        return false;
      }
      if number.value in seen {
        RepeatFails(shards, i, seen);
        return false;
      }
      if number.value >= SHARD_COUNT {
        UnnumberedFails(shards, i);
        return false;
      }
      RanStep(shards, i, seen);
      seen := seen + {number.value};
    }
    RanEnd(shards, seen);
    SizeOfBelow();
    return seen == Below(SHARD_COUNT);
  }

  /** The first `i` shard jobs succeeded with the distinct numbers `seen`. */
  ghost predicate RanSoFar(shards: seq<JobRecord>, i: nat, seen: set<nat>)
    requires i <= |shards|
  {
    && (forall k :: 0 <= k < i ==> NumberedSuccess(shards[k]))
    && (forall n :: n in seen <==> SeenBefore(shards, i, n))
    && (forall n :: n in seen ==> n < SHARD_COUNT)
    && (forall a, b :: 0 <= a < b < i ==> ShardNumber(shards[a].name) != ShardNumber(shards[b].name))
  }

  lemma NothingRan(shards: seq<JobRecord>)
    ensures RanSoFar(shards, 0, {})
  {
  }

  lemma SizeOfBelow()
    ensures |Below(SHARD_COUNT)| == SHARD_COUNT
  {
  }

  lemma UnnumberedFails(shards: seq<JobRecord>, i: nat)
    requires i < |shards| && !NumberedSuccess(shards[i])
    ensures !AllShardsRan(shards)
  {
    hide ShardNumber, Below;
  }

  lemma RepeatFails(shards: seq<JobRecord>, i: nat, seen: set<nat>)
    requires i < |shards| && RanSoFar(shards, i, seen)
    requires ShardNumber(shards[i].name).Some? && ShardNumber(shards[i].name).value in seen
    ensures !AllShardsRan(shards)
  {
    hide ShardNumber, Below, NumberedSuccess;
    assert SeenBefore(shards, i, ShardNumber(shards[i].name).value);
  }

  lemma RanStep(shards: seq<JobRecord>, i: nat, seen: set<nat>)
    requires i < |shards| && RanSoFar(shards, i, seen) && NumberedSuccess(shards[i])
    requires ShardNumber(shards[i].name).value !in seen
    ensures RanSoFar(shards, i + 1, seen + {ShardNumber(shards[i].name).value})
  {
    var number := ShardNumber(shards[i].name).value;
    SeenStep(shards, i, number);
    hide ShardNumber, SeenBefore;
    forall a | 0 <= a < i ensures ShardNumber(shards[a].name) != ShardNumber(shards[i].name) {
      SeenAt(shards, i, a);
    }
  }

  lemma SeenAt(shards: seq<JobRecord>, i: nat, a: nat)
    requires a < i <= |shards| && ShardNumber(shards[a].name).Some?
    ensures SeenBefore(shards, i, ShardNumber(shards[a].name).value)
  {
    hide ShardNumber;
  }

  lemma RanEnd(shards: seq<JobRecord>, seen: set<nat>)
    requires RanSoFar(shards, |shards|, seen)
    ensures AllShardsRan(shards) <==> seen == Below(SHARD_COUNT)
  {
    hide ShardNumber, NumberedSuccess, SeenBefore;
    if AllShardsRan(shards) {
      forall n ensures n in seen <==> n in Below(SHARD_COUNT) {
      }
    }
  }

  lemma SeenStep(shards: seq<JobRecord>, i: nat, number: nat)
    requires i < |shards| && ShardNumber(shards[i].name) == Some(number)
    ensures forall n :: SeenBefore(shards, i + 1, n) <==> SeenBefore(shards, i, n) || n == number
  {
    hide ShardNumber;
    forall n ensures SeenBefore(shards, i + 1, n) <==> SeenBefore(shards, i, n) || n == number {
      if SeenBefore(shards, i, n) {
        var k :| 0 <= k < i && ShardNumber(shards[k].name) == Some(n);
        assert 0 <= k < i + 1;
      }
    }
  }

  /** The first loop: every job goes onto one of three lists, or refuses. */
  method Classify(jobs: seq<JobRecord>)
    returns (ok: bool, classified: seq<JobRecord>, backend: seq<JobRecord>, shards: seq<JobRecord>)
    ensures ok <==> forall i :: 0 <= i < |jobs| ==> Recognized(jobs[i])
    ensures ok ==> classified == Filter(jobs, IsClassifier) && backend == Filter(jobs, IsAggregate)
    ensures ok ==> shards == Filter(jobs, IsShardLike)
  {
    classified, backend, shards := [], [], [];
    FilterStart(jobs, IsClassifier);
    FilterStart(jobs, IsAggregate);
    FilterStart(jobs, IsShardLike);
    hide ShardNumber, Filter;
    for i := 0 to |jobs|
      invariant classified == Filter(jobs[..i], IsClassifier)
      invariant backend == Filter(jobs[..i], IsAggregate)
      invariant shards == Filter(jobs[..i], IsShardLike)
      invariant forall k :: 0 <= k < i ==> Recognized(jobs[k])
    {
      var job := jobs[i];
      FilterPush(jobs, i, IsClassifier);
      FilterPush(jobs, i, IsAggregate);
      FilterPush(jobs, i, IsShardLike);
      if !job.matchesRun {
        return false, classified, backend, shards;
      }
      if job.name == CLASSIFIER {
        classified := classified + [job];
      } else if job.name == AGGREGATE {
        backend := backend + [job];
      } else if ShardNumber(job.name).Some? || job.name == PLACEHOLDER {
        shards := shards + [job];
      } else {
        return false, classified, backend, shards;
      }
    }
    return true, classified, backend, shards;
  }

  /** The conclusion that a step name reads as is unique. */
  lemma ReadingIsSole(j: JobRecord, name: string)
    ensures forall c :: OneStep(j, name, c) <==> StepConclusion(j, name) == Ok(c)
  {
    forall c ensures OneStep(j, name, c) <==> StepConclusion(j, name) == Ok(c) {
      StepIsSole(j, name, c);
    }
  }

  lemma AggregateSays(j: JobRecord)
    ensures forall full, skip :: StepsSay(j, full, skip)
              <==> StepConclusion(j, FULL_STEP) == Ok(full) && StepConclusion(j, SKIP_STEP) == Ok(skip)
  {
    ReadingIsSole(j, FULL_STEP);
    ReadingIsSole(j, SKIP_STEP);
    hide OneStep, StepConclusion;
  }

  lemma FramedCases(jobs: seq<JobRecord>)
    ensures forall full, skip ::
              Framed(jobs, full, skip)
              <==> (&& (forall i :: 0 <= i < |jobs| ==> Recognized(jobs[i]))
                    && |Filter(jobs, IsClassifier)| == 1 && Succeeded(Filter(jobs, IsClassifier)[0])
                    && |Filter(jobs, IsAggregate)| == 1 && Succeeded(Filter(jobs, IsAggregate)[0])
                    && StepsSay(Filter(jobs, IsAggregate)[0], Some(full), Some(skip)))
  {
    hide Recognized, Filter, StepsSay;
  }

  /** Distinguishes the full run from the scoped bypass, and refuses the rest. */
  method Evaluate(jobs: seq<JobRecord>, runOk: bool) returns (r: Result<Mode>)
    ensures r == Ok(FullPass) <==> runOk && FullEvidence(jobs)
    ensures r == Ok(ScopedSkip) <==> runOk && SkipEvidence(jobs)
    ensures r == Ok(FullPass) ==> |Filter(jobs, IsShardLike)| == 64
  {
    if !runOk {
      return Refused;
    }
    FramedCases(jobs);
    hide Recognized, Filter, StepConclusion, AllShardsRan, StepsSay, Framed, IsShardLike, IsClassifier, IsAggregate;
    hide CLASSIFIER, AGGREGATE, SHARD_PREFIX, FULL_STEP, SKIP_STEP;
    var ok, classified, backend, shards := Classify(jobs);
    if !ok {
      return Refused;
    }
    if |classified| != 1 || |backend| != 1 || !(Succeeded(classified[0]) && Succeeded(backend[0])) {
      return Refused;
    }
    AggregateSays(backend[0]);
    var full, skip := StepConclusion(backend[0], FULL_STEP), StepConclusion(backend[0], SKIP_STEP);
    if full.Refused? || skip.Refused? {
      return Refused;
    }
    if |shards| == 1 && shards[0].name == PLACEHOLDER && shards[0].conclusion == "skipped"
       && full.value == Some("skipped") && skip.value == Some("success") {
      return Ok(ScopedSkip);
    }
    var ran := ShardsRan(shards);
    if !ran || full.value != Some("success") || skip.value != Some("skipped") {
      return Refused;
    }
    return Ok(FullPass);
  }

  lemma UniqueShardJob(shards: seq<JobRecord>, k: nat) returns (i: nat)
    requires AllShardsRan(shards) && k < 64
    ensures i < |shards| && RunsShard(shards[i], k)
    ensures forall j :: 0 <= j < |shards| && RunsShard(shards[j], k) ==> j == i
  {
    assert SeenBefore(shards, |shards|, k);
    i :| 0 <= i < |shards| && ShardNumber(shards[i].name) == Some(k);
    assert NumberedSuccess(shards[i]);
  }

  /** A full verdict over sixty-four shards means every collected node was run by
      exactly one successful job: the one whose number is the node's slot. */
  lemma EveryNodeRanOnce(jobs: seq<JobRecord>, nodes: seq<string>, hash: NodeHash, node: string)
    requires FullEvidence(jobs) && AllNodes(nodes) && node in nodes
    ensures var shards := Filter(jobs, IsShardLike);
            |shards| == 64
            && exists i :: 0 <= i < |shards| && OnlyRunner(shards, i, nodes, hash, node)
  {
    var shards := Filter(jobs, IsShardLike);
    var k := Slot(node, SHARD_COUNT, hash);
    var i := UniqueShardJob(shards, k);
    KeepMembers(nodes, k, SHARD_COUNT, hash, node);
    SixtyFour(shards);
    hide Filter, ShardNumber;
    forall j | 0 <= j < |shards| && RunsNode(shards[j], nodes, hash, node) ensures j == i {
      assert NumberedSuccess(shards[j]);
      KeepMembers(nodes, ShardNumber(shards[j].name).value, SHARD_COUNT, hash, node);
    }
    assert node in Keep(nodes, k, SHARD_COUNT, hash);
    assert RunsNode(shards[i], nodes, hash, node);
    assert OnlyRunner(shards, i, nodes, hash, node);
  }

  ghost predicate OnlyRunner(shards: seq<JobRecord>, i: nat, nodes: seq<string>, hash: NodeHash, node: string)
    requires i < |shards|
  {
    && RunsNode(shards[i], nodes, hash, node)
    && (forall j :: 0 <= j < |shards| && RunsNode(shards[j], nodes, hash, node) ==> j == i)
  }

  /** Distinct numbers below sixty-four that leave none out: exactly sixty-four. */
  lemma SixtyFour(shards: seq<JobRecord>)
    requires AllShardsRan(shards)
    ensures |shards| == 64
  {
    hide ShardNumber, Below;
    forall i | 0 <= i < |shards| ensures NumberedSuccess(shards[i]) {}
    var numbers := seq(|shards|, i requires 0 <= i < |shards| => ShardNumber(shards[i].name).value);
    forall k ensures k in numbers <==> k in Below(SHARD_COUNT) {
      if k in Below(SHARD_COUNT) {
        assert SeenBefore(shards, |shards|, k);
        var i :| 0 <= i < |shards| && ShardNumber(shards[i].name) == Some(k);
        assert numbers[i] == k;
      }
    }
    DistinctSize(numbers, Below(SHARD_COUNT));
  }

  lemma {:induction false} DistinctSize(s: seq<nat>, items: set<nat>)
    requires Distinct(s) && forall k :: k in s <==> k in items
    ensures |s| == |items|
  {
    if s == [] {
      assert items == {};
    } else {
      var n := |s| - 1;
      assert s == s[..n] + [s[n]];
      DistinctSize(s[..n], items - {s[n]});
    }
  }

  /** The job succeeded and its selection contains the node. */
  ghost predicate RunsNode(j: JobRecord, nodes: seq<string>, hash: NodeHash, node: string) {
    && j.conclusion == "success" && ShardNumber(j.name).Some?
    && var r := SelectNodes(nodes, ShardNumber(j.name).value, 64, hash);
       r.Ok? && node in r.value
  }
}

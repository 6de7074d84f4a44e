/** The lock telemetry sample: a bounded, clipped view of which server process
    waits for which, and a depth-first search for a waiting cycle in that view. */
module WaitGraph {
  import opened Outcomes
  import opened Tally

  const MAX_ROWS := 32
  const MAX_BLOCKERS := 16

  /** The texts a session may show for its state and its kind of wait. */
  const STATES: seq<string> := ["active", "idle", "idle in transaction", "idle in transaction (aborted)"]
  const WAITS: seq<string> := ["Lock", "IO", "Client", "LWLock", "Timeout", "Activity", "IPC"]
  const MAX_EVENT := 64

  /** One row of the activity view; all but process id and age may be null. */
  datatype Row = Row(
    pid: int, state: Option<string>, waitType: Option<string>, waitEvent: Option<string>, age: int,
    blocking: Option<seq<int>>)
  {
    function Blockers(): seq<int> {
      if blocking.Some? then blocking.value else []
    }
  }

  datatype Session = Session(
    pid: int, state: string, waitType: Option<string>, waitEvent: Option<string>, age: int, blockingPids: seq<int>)

  datatype GraphReport = GraphReport(cycleObserved: bool, complete: bool)

  datatype Summary = Summary(
    clientCount: nat, blockedCount: nat, sessions: seq<Session>,
    truncated: bool, blockerListsTruncated: bool, graph: GraphReport)

  // ------------------------------------------------------------------
  // Waiting relations and their cycles
  // ------------------------------------------------------------------

  type Relation = set<(int, int)>

  ghost predicate Chain(rel: Relation, p: seq<int>) {
    forall i, j :: 0 <= i && j == i + 1 && j < |p| ==> (p[i], p[j]) in rel
  }

  /** A closed walk; a process waiting for itself is the walk [p, p]. */
  ghost predicate IsCycle(rel: Relation, p: seq<int>) {
    |p| >= 2 && p[0] == p[|p| - 1] && Chain(rel, p)
  }

  ghost predicate HasCycle(rel: Relation) {
    exists p :: IsCycle(rel, p)
  }

  lemma CycleInLarger(small: Relation, large: Relation)
    requires small <= large && HasCycle(small)
    ensures HasCycle(large)
  {
    var p :| IsCycle(small, p);
    assert IsCycle(large, p);
  }

  ghost function RawRelation(rows: seq<Row>): Relation {
    set r, b | r in rows && b in r.Blockers() :: (r.pid, b)
  }

  type Graph = map<int, seq<int>>

  ghost function Edges(g: Graph): Relation {
    set a, b | a in g && b in g[a] :: (a, b)
  }

  ghost predicate Closed(g: Graph) {
    forall a, b :: a in g && b in g[a] ==> b in g
  }

  ghost function Elements(s: seq<int>): set<int> {
    set v | v in s
  }

  lemma ElementsPush(s: seq<int>, v: int)
    ensures Elements(s + [v]) == Elements(s) + {v}
  {
    assert forall x :: x in s + [v] <==> x in s || x == v;
  }

  /** Successors strictly below: a certificate that no cycle exists. */
  ghost predicate Ranked(g: Graph, rank: map<int, nat>) {
    forall a, b :: a in rank && a in g && b in g[a] ==> b in rank && rank[b] < rank[a]
  }

  lemma {:induction false} RankFalls(g: Graph, rank: map<int, nat>, p: seq<int>)
    requires Ranked(g, rank) && |p| >= 2 && p[0] in rank && Chain(Edges(g), p)
    ensures p[|p| - 1] in rank && rank[p[|p| - 1]] < rank[p[0]]
  {
    assert (p[0], p[1]) in Edges(g);
    if |p| == 2 {
    } else {
      var q := p[1..];
      forall i, j | 0 <= i && j == i + 1 && j < |q| ensures (q[i], q[j]) in Edges(g) {
        assert (p[i + 1], p[j + 1]) in Edges(g);
      }
      RankFalls(g, rank, q);
    }
  }

  lemma RankedIsAcyclic(g: Graph, rank: map<int, nat>)
    requires Ranked(g, rank) && g.Keys <= rank.Keys
    ensures !HasCycle(Edges(g))
  {
    if HasCycle(Edges(g)) {
      var p :| IsCycle(Edges(g), p);
      assert (p[0], p[1]) in Edges(g);
      RankFalls(g, rank, p);
      assert false;
    }
  }

  lemma SuccessorsKnown(g: Graph, a: int)
    requires Closed(g) && a in g
    ensures forall b :: b in g[a] ==> b in g && (a, b) in Edges(g)
  {
  }

  /** An edge back into the path closes a cycle. */
  lemma BackEdge(rel: Relation, stack: seq<int>, v: int)
    requires Chain(rel, stack) && v in stack && (stack[|stack| - 1], v) in rel
    ensures HasCycle(rel)
  {
    var k :| 0 <= k < |stack| && stack[k] == v;
    assert IsCycle(rel, stack[k..] + [v]);
  }

  // ------------------------------------------------------------------
  // The recursive search with its two shared sets
  // ------------------------------------------------------------------

  class Search {
    const graph: Graph
    var path: set<int>
    var seen: set<int>
    ghost var stack: seq<int>        // path in the order it was entered
    ghost var rank: map<int, nat>    // finishing order of seen
    ghost var clock: nat             // above every rank given so far
    ghost var expanded: seq<int>     // every process whose blocker list was walked

    ghost predicate Valid()
      reads this
    {
      && Closed(graph)
      && path !! seen
      && path + seen <= graph.Keys
      && path == Elements(stack)
      && Chain(Edges(graph), stack)
      && rank.Keys == seen
      && (forall v :: v in rank ==> rank[v] < clock)
      && Ranked(graph, rank)
      && Distinct(expanded)
      && Elements(expanded) == path + seen
    }

    constructor (g: Graph)
      requires Closed(g)
      ensures Valid() && graph == g && path == {} && seen == {} && stack == [] && expanded == []
    {
      graph := g;
      path, seen := {}, {};
      stack, rank, clock, expanded := [], map[], 0, [];
    }

    /** A hit proves a cycle; a miss restores the path and finishes `pid`.
        Either way no blocker list is walked twice. */
    method Visit(pid: int) returns (found: bool)
      requires Valid() && pid in graph
      requires stack != [] ==> (stack[|stack| - 1], pid) in Edges(graph)
      modifies this
      ensures Valid() && old(expanded) <= expanded
      ensures found ==> HasCycle(Edges(graph))
      ensures !found ==> path == old(path) && stack == old(stack)
      ensures !found ==> pid in seen && old(seen) <= seen
      decreases graph.Keys - path - seen
    {
      hide Valid, Closed, Chain, HasCycle, Edges;
      StateFacts();
      SuccessorsKnown(graph, pid);
      if pid in path {
        BackEdge(Edges(graph), stack, pid);
        return true;
      }
      if pid in seen {
        return false;
      }
      Enter(pid);
      var blockers := graph[pid];
      var i := 0;
      while i < |blockers|
        invariant 0 <= i <= |blockers|
        invariant Valid() && old(expanded) <= expanded
        invariant path == old(path) + {pid} && stack == old(stack) + [pid]
        invariant old(seen) <= seen
        invariant forall j :: 0 <= j < i ==> blockers[j] in seen
      {
        assert stack[|stack| - 1] == pid && blockers[i] in graph[pid];
        assert pid in old(graph.Keys - path - seen) && pid !in graph.Keys - path - seen;
        var hit := Visit(blockers[i]);
        if hit {
          return true;
        }
        i := i + 1;
      }
      assert stack[..|stack| - 1] == old(stack);
      Finish(pid);
      return false;
    }

    /** What the search reads off a valid state. */
    lemma StateFacts()
      requires Valid()
      ensures Closed(graph) && Chain(Edges(graph), stack)
      ensures forall v :: v in path <==> v in stack
    {
    }

    method Enter(pid: int)
      requires Valid() && pid in graph && pid !in path && pid !in seen
      requires stack != [] ==> (stack[|stack| - 1], pid) in Edges(graph)
      modifies this
      ensures Valid()
      ensures path == old(path) + {pid} && seen == old(seen)
      ensures stack == old(stack) + [pid] && expanded == old(expanded) + [pid]
    {
      ElementsPush(stack, pid);
      ElementsPush(expanded, pid);
      path := path + {pid};
      stack := stack + [pid];
      expanded := expanded + [pid];
    }

    method Finish(pid: int)
      requires Valid() && stack != [] && stack[|stack| - 1] == pid && pid !in stack[..|stack| - 1]
      requires forall b :: b in graph[pid] ==> b in seen
      modifies this
      ensures Valid()
      ensures path == old(path) - {pid} && seen == old(seen) + {pid}
      ensures stack == old(stack)[..|old(stack)| - 1] && expanded == old(expanded)
    {
      ElementsPush(stack[..|stack| - 1], pid);
      assert stack == stack[..|stack| - 1] + [pid];
      path := path - {pid};
      rank, clock := rank[pid := clock], clock + 1;
      seen := seen + {pid};
      stack := stack[..|stack| - 1];
    }
  }

  // ------------------------------------------------------------------
  // The visible graph and its report
  // ------------------------------------------------------------------

  function Pids(sessions: seq<Session>): set<int> {
    set s | s in sessions :: s.pid
  }

  function KeepKnown(ids: set<int>, pids: seq<int>): (kept: seq<int>)
    ensures forall b :: b in kept <==> b in pids && b in ids
  {
    if pids == [] then []
    else
      var rest := KeepKnown(ids, pids[1..]);
      assert pids == [pids[0]] + pids[1..];
      if pids[0] in ids then [pids[0]] + rest else rest
  }

  /** A later session with the same process id replaces the earlier entry. */
  function VisibleGraph(ids: set<int>, sessions: seq<Session>): (g: Graph)
    ensures g.Keys == Pids(sessions)
  {
    if sessions == [] then map[]
    else
      var last := sessions[|sessions| - 1];
      assert sessions == sessions[..|sessions| - 1] + [last];
      VisibleGraph(ids, sessions[..|sessions| - 1])[last.pid := KeepKnown(ids, last.blockingPids)]
  }

  ghost predicate AllBlockersVisible(sessions: seq<Session>) {
    forall s, b :: s in sessions && b in s.blockingPids ==> b in Pids(sessions)
  }

  lemma {:induction false} VisibleEntry(ids: set<int>, sessions: seq<Session>, pid: int)
    requires pid in Pids(sessions)
    ensures exists s :: s in sessions && s.pid == pid
                        && VisibleGraph(ids, sessions)[pid] == KeepKnown(ids, s.blockingPids)
  {
    var n := |sessions| - 1;
    assert sessions == sessions[..n] + [sessions[n]];
    if sessions[n].pid == pid {
    } else {
      VisibleEntry(ids, sessions[..n], pid);
      var s :| s in sessions[..n] && s.pid == pid
               && VisibleGraph(ids, sessions[..n])[pid] == KeepKnown(ids, s.blockingPids);
      assert s in sessions;
    }
  }

  /** The session at `j` is the last one of its process. */
  predicate IsLast(sessions: seq<Session>, j: int) {
    0 <= j < |sessions| && forall k :: j < k < |sessions| ==> sessions[k].pid != sessions[j].pid
  }

  /** The last session of a process decides what it waits for. */
  lemma {:induction false} LastWins(ids: set<int>, sessions: seq<Session>, j: nat)
    requires IsLast(sessions, j)
    ensures VisibleGraph(ids, sessions)[sessions[j].pid] == KeepKnown(ids, sessions[j].blockingPids)
  {
    var n := |sessions| - 1;
    assert sessions == sessions[..n] + [sessions[n]];
    if j == n {
    } else {
      assert sessions[n].pid != sessions[j].pid;
      LastWins(ids, sessions[..n], j);
    }
  }

  lemma {:induction false} LastExists(sessions: seq<Session>, i: nat) returns (j: nat)
    requires i < |sessions|
    ensures IsLast(sessions, j) && sessions[j].pid == sessions[i].pid
  {
    var n := |sessions| - 1;
    if sessions[n].pid == sessions[i].pid {
      j := n;
    } else {
      j := LastExists(sessions[..n], i);
      assert sessions[..n][j] == sessions[j];
      forall k | j < k < |sessions| ensures sessions[k].pid != sessions[j].pid {
        if k < n {
          assert sessions[..n][k].pid == sessions[k].pid;
        }
      }
    }
  }

  lemma VisibleIsClosed(sessions: seq<Session>)
    ensures Closed(VisibleGraph(Pids(sessions), sessions))
  {
    var g := VisibleGraph(Pids(sessions), sessions);
    forall a, b | a in g && b in g[a] ensures b in g {
      VisibleEntry(Pids(sessions), sessions, a);
    }
  }

  /** Search from every process not yet finished, in session order. `walked`
      lists the processes whose blocker list was walked, over all roots. */
  method ObservedBlockerGraph(sessions: seq<Session>, truncated: bool)
    returns (r: GraphReport, ghost walked: seq<int>)
    ensures r.cycleObserved <==> HasCycle(Edges(VisibleGraph(Pids(sessions), sessions)))
    ensures r.complete <==> !truncated && AllBlockersVisible(sessions)
    ensures Distinct(walked) && Elements(walked) <= Pids(sessions)
    ensures !r.cycleObserved ==> Elements(walked) == Pids(sessions)
  {
    hide VisibleGraph, HasCycle, Closed, Chain, Ranked, Edges;
    var ids := Pids(sessions);
    var g := VisibleGraph(ids, sessions);
    VisibleIsClosed(sessions);
    var complete := !truncated && forall s :: s in sessions ==> forall b :: b in s.blockingPids ==> b in ids;
    var search := new Search(g);
    var i := 0;
    while i < |sessions|
      invariant 0 <= i <= |sessions|
      invariant search.Valid() && search.graph == g && fresh(search)
      invariant search.path == {} && search.stack == []
      invariant forall j :: 0 <= j < i ==> sessions[j].pid in search.seen
    {
      var pid := sessions[i].pid;
      if pid !in search.seen {
        var detected := search.Visit(pid);
        if detected {
          return GraphReport(true, complete), search.expanded;
        }
      }
      i := i + 1;
    }
    assert g.Keys <= search.rank.Keys;
    RankedIsAcyclic(g, search.rank);
    return GraphReport(false, complete), search.expanded;
  }

  // ------------------------------------------------------------------
  // The bounded summary of the raw rows
  // ------------------------------------------------------------------

  /** The blockers shown: the first sixteen. */
  function Shown(pids: seq<int>): (r: seq<int>)
    ensures r <= pids && |r| <= MAX_BLOCKERS && (|pids| <= MAX_BLOCKERS ==> r == pids)
    ensures |pids| > MAX_BLOCKERS ==> |r| == MAX_BLOCKERS
  {
    if |pids| > MAX_BLOCKERS then pids[..MAX_BLOCKERS] else pids
  }

  function Clip(row: Row): (s: Session)
    ensures s.pid == row.pid && s.blockingPids == Shown(row.Blockers())
  {
    Session(
      row.pid,
      if row.state.Some? && row.state.value in STATES then row.state.value else "other",
      if row.waitType.Some? && row.waitType.value in WAITS then row.waitType else None,
      if row.waitEvent.None? || row.waitEvent.value == "" then None
      else if |row.waitEvent.value| <= MAX_EVENT then row.waitEvent else Some(row.waitEvent.value[..MAX_EVENT]),
      if row.age < 0 then 0 else row.age,
      Shown(row.Blockers()))
  }

  /** The texts that may leave the probe as they are. */
  ghost predicate ListedState(t: string) {
    t == "active" || t == "idle" || t == "idle in transaction" || t == "idle in transaction (aborted)"
  }

  ghost predicate ListedWait(t: string) {
    t == "Lock" || t == "IO" || t == "Client" || t == "LWLock" || t == "Timeout" || t == "Activity" || t == "IPC"
  }

  /** `part` is all of `whole`, or its first `limit` items when there are more. */
  ghost predicate FirstOf<T>(part: seq<T>, whole: seq<T>, limit: nat) {
    part <= whole && |part| <= limit && (|part| < limit ==> part == whole)
  }

  /** What a session says of its row: nothing but listed texts, a short event name
      and numbers leaves the probe, and each of them is the row's own. */
  ghost predicate Shows(s: Session, row: Row) {
    && s.pid == row.pid
    && (if row.state.Some? && ListedState(row.state.value) then Some(s.state) == row.state else s.state == "other")
    && (s.waitType.Some? <==> row.waitType.Some? && ListedWait(row.waitType.value))
    && (s.waitType.Some? ==> s.waitType == row.waitType)
    && (s.waitEvent.Some? <==> row.waitEvent.Some? && row.waitEvent.value != "")
    && (s.waitEvent.Some? ==> FirstOf(s.waitEvent.value, row.waitEvent.value, 64))
    && s.age >= 0 && s.age >= row.age && (s.age == 0 || s.age == row.age)
    && (row.blocking.Some? ==> FirstOf(s.blockingPids, row.blocking.value, 16))
    && (row.blocking.None? ==> s.blockingPids == [])
  }

  lemma ListsAreExact(t: string)
    ensures t in STATES <==> ListedState(t)
    ensures t in WAITS <==> ListedWait(t)
  {
  }

  lemma ClipShows(row: Row)
    ensures Shows(Clip(row), row)
  {
    if row.state.Some? {
      ListsAreExact(row.state.value);
    }
    if row.waitType.Some? {
      ListsAreExact(row.waitType.value);
    }
    hide STATES, WAITS, ListedState, ListedWait;
  }

  function SampleSize(rows: seq<Row>): (n: nat)
    ensures n <= |rows|
  {
    if |rows| <= MAX_ROWS then |rows| else MAX_ROWS
  }

  /** The sessions shown: the first rows, each with its first blockers. */
  function Sample(rows: seq<Row>): (s: seq<Session>)
    ensures |s| == SampleSize(rows) <= MAX_ROWS
    ensures forall i :: 0 <= i < |s| ==> s[i] == Clip(rows[i]) && |s[i].blockingPids| <= MAX_BLOCKERS
  {
    seq(SampleSize(rows), i requires 0 <= i < SampleSize(rows) => Clip(rows[i]))
  }

  function CountBlocked(sessions: seq<Session>): (n: nat)
    ensures n <= |sessions|
  {
    if sessions == [] then 0
    else
      var n := |sessions| - 1;
      CountBlocked(sessions[..n]) + if sessions[n].blockingPids != [] then 1 else 0
  }

  /** The indices of the sessions that wait for somebody. */
  ghost function Waiting(sessions: seq<Session>): set<int> {
    set i | 0 <= i < |sessions| && sessions[i].blockingPids != []
  }

  lemma {:induction false} BlockedIsWaiting(sessions: seq<Session>)
    ensures CountBlocked(sessions) == |Waiting(sessions)|
  {
    if sessions == [] {
    } else {
      var n := |sessions| - 1;
      BlockedIsWaiting(sessions[..n]);
      assert Waiting(sessions) == Waiting(sessions[..n]) + if sessions[n].blockingPids != [] then {n} else {};
    }
  }

  ghost predicate AllShow(sessions: seq<Session>, rows: seq<Row>) {
    |sessions| <= |rows| && forall k :: 0 <= k < |sessions| ==> Shows(sessions[k], rows[k])
  }

  lemma ShowPush(sessions: seq<Session>, rows: seq<Row>, s: Session)
    requires AllShow(sessions, rows) && |sessions| < |rows| && Shows(s, rows[|sessions|])
    ensures AllShow(sessions + [s], rows)
  {
    hide Shows;
  }

  method SafeSummary(rows: seq<Row>) returns (r: Summary)
    ensures r.sessions == Sample(rows) && r.clientCount == |r.sessions|
    ensures |r.sessions| == if |rows| > 32 then 32 else |rows|
    ensures forall i :: 0 <= i < |r.sessions| ==> Shows(r.sessions[i], rows[i])
    ensures r.blockedCount == |set i | 0 <= i < |r.sessions| && r.sessions[i].blockingPids != []|
    ensures r.truncated <==> |rows| > 32
    ensures r.blockerListsTruncated
            <==> exists i :: 0 <= i < |r.sessions| && rows[i].blocking.Some? && |rows[i].blocking.value| > 16
    ensures r.graph.cycleObserved <==> HasCycle(SampleRelation(rows))
    ensures r.graph.complete <==> Complete(rows)
  {
    hide STATES, WAITS, Shows, Clip, Shown, HasCycle, VisibleGraph, Edges, Pids, AllBlockersVisible, Complete,
      CountBlocked;
    var sessions: seq<Session> := [];
    var clipped := false;
    var kept := rows[..SampleSize(rows)];
    var i := 0;
    while i < |kept|
      invariant 0 <= i <= |kept|
      invariant sessions == Sample(rows)[..i]
      invariant AllShow(sessions, rows)
      invariant clipped <==> exists j :: 0 <= j < i && rows[j].blocking.Some? && |rows[j].blocking.value| > 16
    {
      if |kept[i].Blockers()| > MAX_BLOCKERS {
        clipped := true;
      }
      assert kept[i] == rows[i];
      ClipShows(rows[i]);
      ShowPush(sessions, rows, Clip(kept[i]));
      sessions := sessions + [Clip(kept[i])];
      assert Sample(rows)[..i + 1] == Sample(rows)[..i] + [Sample(rows)[i]];
      i := i + 1;
    }
    assert sessions == Sample(rows);
    var truncated := |rows| > MAX_ROWS;
    var graph, walked := ObservedBlockerGraph(sessions, truncated || clipped);
    CompletenessFlag(rows);
    BlockedIsWaiting(sessions);
    r := Summary(|sessions|, CountBlocked(sessions), sessions, truncated, clipped, graph);
  }

  // ------------------------------------------------------------------
  // What the sample says about the raw relation
  // ------------------------------------------------------------------

  ghost function SampleRelation(rows: seq<Row>): Relation {
    Edges(VisibleGraph(Pids(Sample(rows)), Sample(rows)))
  }

  lemma ShownEdgeIsRaw(rows: seq<Row>, a: int, b: int)
    requires (a, b) in SampleRelation(rows)
    ensures (a, b) in RawRelation(rows)
  {
    var ss := Sample(rows);
    var g := VisibleGraph(Pids(ss), ss);
    VisibleEntry(Pids(ss), ss, a);
    hide VisibleGraph, KeepKnown, Shown, Clip;
    var s :| s in ss && s.pid == a && g[a] == KeepKnown(Pids(ss), s.blockingPids);
    var i :| 0 <= i < |ss| && ss[i] == s;
    assert rows[i] in rows && b in rows[i].Blockers();
  }

  lemma SampleWithinRaw(rows: seq<Row>)
    ensures SampleRelation(rows) <= RawRelation(rows)
  {
    hide SampleRelation, RawRelation;
    forall e | e in SampleRelation(rows) ensures e in RawRelation(rows) {
      ShownEdgeIsRaw(rows, e.0, e.1);
    }
  }

  /** Both cuts only hide edges: an observed cycle is a cycle of the raw rows,
      whatever was truncated and even if process ids repeat. */
  lemma ObservedCycleIsReal(rows: seq<Row>)
    requires HasCycle(SampleRelation(rows))
    ensures HasCycle(RawRelation(rows))
  {
    SampleWithinRaw(rows);
    CycleInLarger(SampleRelation(rows), RawRelation(rows));
  }

  ghost predicate DistinctPids(rows: seq<Row>) {
    forall i, j :: 0 <= i < j < |rows| ==> rows[i].pid != rows[j].pid
  }

  /** The completeness flag of the report, as a condition on the raw rows. */
  ghost predicate Complete(rows: seq<Row>) {
    && |rows| <= 32
    && (forall r :: r in rows ==> |r.Blockers()| <= 16)
    && (forall r, b :: r in rows && b in r.Blockers() ==> exists o :: o in rows && o.pid == b)
  }

  lemma CompletenessFlag(rows: seq<Row>)
    ensures Complete(rows)
            <==> && |rows| <= MAX_ROWS
                 && !(exists i :: 0 <= i < |Sample(rows)| && |rows[i].Blockers()| > MAX_BLOCKERS)
                 && AllBlockersVisible(Sample(rows))
  {
    var ss := Sample(rows);
    if |rows| <= MAX_ROWS && (forall i :: 0 <= i < |ss| ==> |rows[i].Blockers()| <= MAX_BLOCKERS) {
      assert forall i :: 0 <= i < |rows| ==> ss[i].pid == rows[i].pid && ss[i].blockingPids == rows[i].Blockers();
      forall b ensures b in Pids(ss) <==> exists o :: o in rows && o.pid == b {
        if o :| o in rows && o.pid == b {
          var k :| 0 <= k < |rows| && rows[k] == o;
          assert ss[k] in ss;
        }
        if s :| s in ss && s.pid == b {
          var k :| 0 <= k < |ss| && ss[k] == s;
          assert rows[k] in rows;
        }
      }
      if AllBlockersVisible(ss) {
        forall r, b | r in rows && b in r.Blockers() ensures exists o :: o in rows && o.pid == b {
          var k :| 0 <= k < |rows| && rows[k] == r;
          assert ss[k] in ss && b in ss[k].blockingPids;
          assert b in Pids(ss);
        }
      }
      if Complete(rows) {
        forall s, b | s in ss && b in s.blockingPids ensures b in Pids(ss) {
          var k :| 0 <= k < |ss| && ss[k] == s;
          assert rows[k] in rows && b in rows[k].Blockers();
        }
      }
    }
  }

  /** Row `i` waits for nothing that row `j`, if of the same process, does not list. */
  predicate CoveredBy(rows: seq<Row>, i: int, j: int)
    requires 0 <= i < |rows| && 0 <= j < |rows|
  {
    rows[i].pid == rows[j].pid ==> forall b :: b in rows[i].Blockers() ==> b in rows[j].Blockers()
  }

  predicate IsLastRow(rows: seq<Row>, j: int) {
    0 <= j < |rows| && forall k :: j < k < |rows| ==> rows[k].pid != rows[j].pid
  }

  /** The last row of every process lists all that any row of the process lists. */
  ghost predicate LastCovers(rows: seq<Row>) {
    forall i, j :: 0 <= i < |rows| && 0 <= j < |rows| && IsLastRow(rows, j) ==> CoveredBy(rows, i, j)
  }

  /** Without cuts the sample is the rows themselves. */
  lemma SampleIsRows(rows: seq<Row>)
    requires Complete(rows)
    ensures var ss := Sample(rows);
            |ss| == |rows|
            && forall k :: 0 <= k < |rows| ==> ss[k].pid == rows[k].pid && ss[k].blockingPids == rows[k].Blockers()
    ensures forall j :: IsLastRow(rows, j) <==> IsLast(Sample(rows), j)
    ensures forall r, b :: r in rows && b in r.Blockers() ==> b in Pids(Sample(rows))
  {
    CompletenessFlag(rows);
    var ss := Sample(rows);
    forall k | 0 <= k < |rows| ensures ss[k].pid == rows[k].pid && ss[k].blockingPids == rows[k].Blockers() {
      assert rows[k] in rows;
    }
    forall r, b | r in rows && b in r.Blockers() ensures b in Pids(ss) {
      var k :| 0 <= k < |rows| && rows[k] == r;
      assert ss[k] in ss && b in ss[k].blockingPids;
    }
  }

  /** In a complete sample the edges of a process are the blockers of its last row. */
  lemma EdgesOfLast(rows: seq<Row>, j: nat, b: int)
    requires Complete(rows) && IsLastRow(rows, j)
    ensures (rows[j].pid, b) in SampleRelation(rows) <==> b in rows[j].Blockers()
  {
    SampleIsRows(rows);
    hide Complete, Sample, IsLast, IsLastRow;
    var ss := Sample(rows);
    LastWins(Pids(ss), ss, j);
    hide VisibleGraph, KeepKnown;
    assert ss[j] in ss && rows[j] in rows;
  }

  /** A complete sample is the raw relation exactly when no later row of a process
      drops a blocker of an earlier one. */
  lemma CompleteSampleIsExactIff(rows: seq<Row>)
    requires Complete(rows)
    ensures SampleRelation(rows) == RawRelation(rows) <==> LastCovers(rows)
  {
    SampleWithinRaw(rows);
    hide SampleRelation, Complete, IsLastRow;
    if SampleRelation(rows) == RawRelation(rows) {
      forall i, j | 0 <= i < |rows| && 0 <= j < |rows| && IsLastRow(rows, j) ensures CoveredBy(rows, i, j) {
        if rows[i].pid == rows[j].pid {
          forall b | b in rows[i].Blockers() ensures b in rows[j].Blockers() {
            assert rows[i] in rows && (rows[i].pid, b) in RawRelation(rows);
            EdgesOfLast(rows, j, b);
          }
        }
      }
    }
    if LastCovers(rows) {
      forall e | e in RawRelation(rows) ensures e in SampleRelation(rows) {
        var r, b :| r in rows && b in r.Blockers() && e == (r.pid, b);
        var i :| 0 <= i < |rows| && rows[i] == r;
        var j := LastRowExists(rows, i);
        LastRowInRange(rows, j);
        assert CoveredBy(rows, i, j);
        EdgesOfLast(rows, j, b);
      }
    }
  }

  lemma LastRowInRange(rows: seq<Row>, j: int)
    requires IsLastRow(rows, j)
    ensures 0 <= j < |rows|
  {
  }

  lemma LastRowExists(rows: seq<Row>, i: nat) returns (j: nat)
    requires Complete(rows) && i < |rows|
    ensures IsLastRow(rows, j) && rows[j].pid == rows[i].pid
  {
    SampleIsRows(rows);
    hide Complete, IsLast, IsLastRow;
    j := LastExists(Sample(rows), i);
    LastRowInRange(rows, j);
  }

  /** A complete sample of distinct processes is the raw relation itself, so
      "complete and no cycle" means the whole raw relation is acyclic. */
  lemma CompleteSampleIsExact(rows: seq<Row>)
    requires DistinctPids(rows) && Complete(rows)
    ensures SampleRelation(rows) == RawRelation(rows)
    ensures HasCycle(SampleRelation(rows)) <==> HasCycle(RawRelation(rows))
  {
    DistinctIsCovered(rows);
    CompleteSampleIsExactIff(rows);
    hide SampleRelation, RawRelation, Complete, LastCovers, HasCycle;
  }

  lemma DistinctIsCovered(rows: seq<Row>)
    requires DistinctPids(rows)
    ensures LastCovers(rows)
  {
  }

  function PlainRow(pid: int, blockers: seq<int>): Row {
    Row(pid, None, None, None, 0, Some(blockers))
  }

  /** The condition matters: a later row of one process without blockers hides its
      first row's self-wait from a sample that calls itself complete. */
  lemma RepeatedPidHidesCycle()
    ensures var rows := [PlainRow(1, [1]), PlainRow(1, [])];
            Complete(rows) && !LastCovers(rows)
            && HasCycle(RawRelation(rows)) && !HasCycle(SampleRelation(rows))
  {
    var rows := [PlainRow(1, [1]), PlainRow(1, [])];
    assert rows[0] in rows && 1 in rows[0].Blockers();
    assert IsCycle(RawRelation(rows), [1, 1]);
    EdgesOfOne(rows);
    assert IsLastRow(rows, 1) && !CoveredBy(rows, 0, 1);
  }

  lemma EdgesOfOne(rows: seq<Row>)
    requires rows == [PlainRow(1, [1]), PlainRow(1, [])]
    ensures !HasCycle(SampleRelation(rows))
  {
    hide STATES, WAITS;
    var ss := Sample(rows);
    assert ss[0].blockingPids == [1] && ss[1].blockingPids == [] && ss[0].pid == ss[1].pid == 1;
    assert IsLast(ss, 1);
    LastWins(Pids(ss), ss, 1);
    var g := VisibleGraph(Pids(ss), ss);
    assert ss[0] in ss && forall p :: p in Pids(ss) ==> p == 1;
    hide VisibleGraph, KeepKnown;
    assert g[1] == KeepKnown(Pids(ss), []) && g.Keys == {1};
    RankedIsAcyclic(g, map[1 := 0]);
  }

  /** A repeated process does no harm when its last row lists everything. */
  lemma RepeatedPidCanBeExact()
    ensures var rows := [PlainRow(1, [1]), PlainRow(1, [1])];
            Complete(rows) && !DistinctPids(rows) && SampleRelation(rows) == RawRelation(rows)
  {
    hide SampleRelation, RawRelation, STATES, WAITS;
    var rows := [PlainRow(1, [1]), PlainRow(1, [1])];
    assert rows[0] in rows && rows[0].pid == rows[1].pid;
    CompleteSampleIsExactIff(rows);
  }
}

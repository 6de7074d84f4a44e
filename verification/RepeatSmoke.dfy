/** Three observation rounds over three fixed scenarios, and the digest guard that
    re-validates their report. */
module RepeatSmoke {
  import opened Outcomes
  import Tally

  const ROUNDS := 3
  const SCENARIOS := 3
  const ELAPSED_LIMIT := 3600000

  const NAMES: seq<string> := ["complete_records", "missing_engine_records", "conflicting_alarm_times"]

  datatype Status = Accepted | Incomplete | Rejected | Unknown(text: string)

  /** One scenario's row of a round; an absent key is None. */
  datatype Row = Row(
    scenario: string, status: Status, elapsed: int,
    total: Option<int>, observed: Option<int>, missing: Option<int>, expertVerified: Option<bool>)

  datatype Counts = Counts(
    accepted: int, incomplete: int, rejected: int,
    contextComplete: int, contextIncomplete: int, notEvaluated: int, pairsMissing: int,
    minElapsed: Option<int>, maxElapsed: Option<int>)

  datatype Report = Report(rounds: int, scenariosPerRound: int, allAccepted: bool, records: seq<(string, Counts)>)

  const ZERO := Counts(0, 0, 0, 0, 0, 0, 0, None, None)

  // ------------------------------------------------------------------
  // What a round may report
  // ------------------------------------------------------------------

  predicate NoContext(row: Row) {
    row.total.None? && row.observed.None? && row.missing.None? && row.expertVerified.None?
  }

  predicate FullContext(row: Row) {
    && row.total == Some(3) && row.observed.Some? && 0 <= row.observed.value <= 3
    && row.missing.Some? && 0 <= row.missing.value <= 3
    && row.observed.value + row.missing.value == 3 && row.expertVerified == Some(false)
  }

  /** A rejected row carries no context figures; every other row carries all. */
  predicate RowOk(row: Row) {
    && !row.status.Unknown? && 0 <= row.elapsed <= 3600000
    && if row.status.Rejected? then NoContext(row) else FullContext(row)
  }

  predicate ShapeOk(rows: seq<Row>) {
    |rows| == |NAMES| && forall k :: 0 <= k < |rows| ==> rows[k].scenario == NAMES[k]
  }

  predicate RoundOk(rows: seq<Row>) {
    ShapeOk(rows) && forall k :: 0 <= k < |rows| ==> RowOk(rows[k])
  }

  predicate RoundsOk(provider: nat -> seq<Row>) {
    forall m :: 0 <= m < ROUNDS ==> RoundOk(provider(m))
  }

  // ------------------------------------------------------------------
  // What the counters mean
  // ------------------------------------------------------------------

  predicate IsAccepted(row: Row) { row.status.Accepted? }

  predicate IsIncomplete(row: Row) { row.status.Incomplete? }

  predicate IsRejected(row: Row) { row.status.Rejected? }

  function MissingIn(row: Row): int { if row.missing.Some? then row.missing.value else 0 }

  predicate LosesNothing(row: Row) { !row.status.Rejected? && MissingIn(row) == 0 }

  predicate LosesPairs(row: Row) { !row.status.Rejected? && MissingIn(row) != 0 }

  ghost predicate Extremes(least: Option<int>, most: Option<int>, rows: seq<Row>) {
    && (least.Some? <==> rows != []) && (most.Some? <==> rows != [])
    && (rows != [] ==>
          && (exists k :: 0 <= k < |rows| && rows[k].elapsed == least.value)
          && (exists k :: 0 <= k < |rows| && rows[k].elapsed == most.value))
    && forall k :: 0 <= k < |rows| ==> least.value <= rows[k].elapsed <= most.value
  }

  /** The counters of one scenario over the rows seen for it. */
  ghost predicate SummaryOf(c: Counts, rows: seq<Row>) {
    && c.accepted == Tally.Count(rows, IsAccepted)
    && c.incomplete == Tally.Count(rows, IsIncomplete)
    && c.rejected == Tally.Count(rows, IsRejected)
    && c.contextComplete == Tally.Count(rows, LosesNothing)
    && c.contextIncomplete == Tally.Count(rows, LosesPairs)
    && c.notEvaluated == Tally.Count(rows, IsRejected)
    && c.pairsMissing == Tally.Sum(rows, MissingIn)
    && Extremes(c.minElapsed, c.maxElapsed, rows)
  }

  lemma SummaryStart()
    ensures SummaryOf(ZERO, [])
  {
  }

  /** The counters after one more row. */
  function Counted(c: Counts, row: Row): Counts {
    var missing := MissingIn(row);
    Counts(
      c.accepted + if row.status.Accepted? then 1 else 0,
      c.incomplete + if row.status.Incomplete? then 1 else 0,
      c.rejected + if row.status.Rejected? then 1 else 0,
      c.contextComplete + if !row.status.Rejected? && missing == 0 then 1 else 0,
      c.contextIncomplete + if !row.status.Rejected? && missing != 0 then 1 else 0,
      c.notEvaluated + if row.status.Rejected? then 1 else 0,
      c.pairsMissing + missing,
      Some(if c.minElapsed.None? || row.elapsed < c.minElapsed.value then row.elapsed else c.minElapsed.value),
      Some(if c.maxElapsed.None? || row.elapsed > c.maxElapsed.value then row.elapsed else c.maxElapsed.value))
  }

  lemma SummaryPush(c: Counts, rows: seq<Row>, row: Row)
    requires SummaryOf(c, rows)
    ensures SummaryOf(Counted(c, row), rows + [row])
  {
    var after := rows + [row];
    assert after[..|after| - 1] == rows;
    ExtremesPush(c.minElapsed, c.maxElapsed, rows, row);
    hide Extremes;
  }

  lemma ExtremesPush(least: Option<int>, most: Option<int>, rows: seq<Row>, row: Row)
    requires Extremes(least, most, rows)
    ensures Extremes(
              Some(if least.None? || row.elapsed < least.value then row.elapsed else least.value),
              Some(if most.None? || row.elapsed > most.value then row.elapsed else most.value),
              rows + [row])
  {
    var after := rows + [row];
    assert after[|rows|] == row;
    if rows != [] {
      var i :| 0 <= i < |rows| && rows[i].elapsed == least.value;
      var j :| 0 <= j < |rows| && rows[j].elapsed == most.value;
      assert after[i] == rows[i] && after[j] == rows[j];
    }
  }

  // ------------------------------------------------------------------
  // The three rounds
  // ------------------------------------------------------------------

  /** Checks one row and counts it. */
  method CountRow(c: Counts, row: Row) returns (ok: bool, next: Counts)
    ensures ok <==> RowOk(row)
    ensures ok ==> next == Counted(c, row)
  {
    next := c;
    if row.status.Unknown? || row.elapsed < 0 || row.elapsed > ELAPSED_LIMIT {
      return false, next;
    }
    match row.status {
      case Accepted => next := next.(accepted := next.accepted + 1);
      case Incomplete => next := next.(incomplete := next.incomplete + 1);
      case Rejected => next := next.(rejected := next.rejected + 1);
    }
    if row.status.Rejected? {
      if row.total.Some? || row.observed.Some? || row.missing.Some? || row.expertVerified.Some? {
        return false, next;
      }
      next := next.(notEvaluated := next.notEvaluated + 1);
    } else {
      if row.total != Some(SCENARIOS) || row.observed.None? || row.missing.None? || row.expertVerified != Some(false) {
        return false, next;
      }
      var observed, missing := row.observed.value, row.missing.value;
      if observed < 0 || observed > 3 || missing < 0 || missing > 3 || observed + missing != 3 {
        return false, next;
      }
      if missing == 0 {
        next := next.(contextComplete := next.contextComplete + 1);
      } else {
        next := next.(contextIncomplete := next.contextIncomplete + 1);
      }
      next := next.(pairsMissing := next.pairsMissing + missing);
    }
    var least, most := row.elapsed, row.elapsed;
    if next.minElapsed.Some? && next.minElapsed.value <= row.elapsed { least := next.minElapsed.value; }
    if next.maxElapsed.Some? && next.maxElapsed.value >= row.elapsed { most := next.maxElapsed.value; }
    next := next.(minElapsed := Some(least), maxElapsed := Some(most));
    return true, next;
  }

  predicate Keyed(counts: map<string, Counts>) {
    forall k :: 0 <= k < |NAMES| ==> NAMES[k] in counts
  }

  lemma NamesDistinct()
    ensures |NAMES| == SCENARIOS
    ensures forall i, j :: 0 <= i < j < |NAMES| ==> NAMES[i] != NAMES[j]
  {
    assert |NAMES[0]| == 16 && |NAMES[1]| == 22 && |NAMES[2]| == 23;
  }

  /** Counts every row of one round under its own name. */
  method CountRound(counts: map<string, Counts>, rows: seq<Row>) returns (ok: bool, next: map<string, Counts>)
    requires Keyed(counts)
    ensures ok <==> RoundOk(rows)
    ensures ok ==> Keyed(next) && |rows| == |NAMES|
                   && forall k :: 0 <= k < |NAMES| ==> next[NAMES[k]] == Counted(counts[NAMES[k]], rows[k])
  {
    hide RowOk, Counted;
    NamesDistinct();
    next := counts;
    if |rows| != |NAMES| || exists k :: 0 <= k < |rows| && rows[k].scenario != NAMES[k] {
      return false, next;
    }
    hide NAMES;
    for j := 0 to |rows|
      invariant Keyed(next)
      invariant forall k :: 0 <= k < j ==> RowOk(rows[k])
      invariant forall k :: 0 <= k < j ==> next[NAMES[k]] == Counted(counts[NAMES[k]], rows[k])
      invariant forall k :: j <= k < |NAMES| ==> next[NAMES[k]] == counts[NAMES[k]]
    {
      var name := rows[j].scenario;
      var fine, summary := CountRow(next[name], rows[j]);
      if !fine {
        return false, next;
      }
      next := next[name := summary];
    }
    return true, next;
  }

  /** The rows reported for scenario `k` in the first `n` rounds. */
  ghost function Column(provider: nat -> seq<Row>, k: nat, n: nat): (rows: seq<Row>)
    requires forall m :: 0 <= m < n ==> k < |provider(m)|
    ensures |rows| == n && forall m :: 0 <= m < n ==> rows[m] == provider(m)[k]
  {
    if n == 0 then [] else Column(provider, k, n - 1) + [provider(n - 1)[k]]
  }

  /** The report is the exact tally of three well-formed rounds. */
  ghost predicate ReportOf(r: Report, provider: nat -> seq<Row>)
    requires RoundsOk(provider)
  {
    && r.rounds == ROUNDS && r.scenariosPerRound == |NAMES| && |r.records| == |NAMES|
    && (forall k :: 0 <= k < |r.records| ==>
          r.records[k].0 == NAMES[k] && SummaryOf(r.records[k].1, Column(provider, k, ROUNDS)))
    && (r.allAccepted <==> forall m, k :: 0 <= m < ROUNDS && 0 <= k < |NAMES| ==> IsAccepted(provider(m)[k]))
  }

  ghost predicate CountedRounds(counts: map<string, Counts>, provider: nat -> seq<Row>, n: nat) {
    && Keyed(counts)
    && (forall m :: 0 <= m < n ==> RoundOk(provider(m)))
    && forall k :: 0 <= k < |NAMES| ==> SummaryOf(counts[NAMES[k]], Column(provider, k, n))
  }

  lemma RoundPush(counts: map<string, Counts>, next: map<string, Counts>, provider: nat -> seq<Row>, n: nat)
    requires CountedRounds(counts, provider, n) && RoundOk(provider(n)) && Keyed(next)
    requires forall k :: 0 <= k < |NAMES| ==> next[NAMES[k]] == Counted(counts[NAMES[k]], provider(n)[k])
    ensures CountedRounds(next, provider, n + 1)
  {
    hide SummaryOf, Counted, RowOk, NAMES;
    forall k | 0 <= k < |NAMES| ensures SummaryOf(next[NAMES[k]], Column(provider, k, n + 1)) {
      SummaryPush(counts[NAMES[k]], Column(provider, k, n), provider(n)[k]);
    }
  }

  lemma RoundsStart(counts: map<string, Counts>, provider: nat -> seq<Row>)
    requires Keyed(counts) && forall k :: 0 <= k < |NAMES| ==> counts[NAMES[k]] == ZERO
    ensures CountedRounds(counts, provider, 0)
  {
    hide SummaryOf, NAMES, ZERO;
    SummaryStart();
  }

  lemma {:induction false} AllCounted(rows: seq<Row>)
    ensures Tally.Count(rows, IsAccepted) == |rows| <==> forall k :: 0 <= k < |rows| ==> IsAccepted(rows[k])
  {
    if rows == [] {
    } else {
      AllCounted(rows[..|rows| - 1]);
    }
  }

  /** Three rounds of three scenarios; refuses the first malformed round. */
  method RunThreeRounds(provider: nat -> seq<Row>) returns (r: Result<Report>)
    ensures r.Ok? <==> RoundsOk(provider)
    ensures r.Ok? ==> ReportOf(r.value, provider)
  {
    hide RoundOk, SummaryOf, Counted, ZERO, NAMES, IsAccepted, CountedRounds;
    var counts := map k | k in NAMES :: ZERO;
    RoundsStart(counts, provider);
    for round := 0 to ROUNDS
      invariant CountedRounds(counts, provider, round)
      invariant forall m :: 0 <= m < round ==> RoundOk(provider(m))
    {
      CountedKeys(counts, provider, round);
      var ok, next := CountRound(counts, provider(round));
      if !ok {
        return Refused;
      }
      RoundPush(counts, next, provider, round);
      counts := next;
    }
    CountedKeys(counts, provider, ROUNDS);
    var records := seq(|NAMES|, k requires 0 <= k < |NAMES| => (NAMES[k], counts[NAMES[k]]));
    var all := forall k :: 0 <= k < |records| ==> records[k].1.accepted == ROUNDS;
    AllAccepted(counts, provider, records);
    return Ok(Report(ROUNDS, |NAMES|, all, records));
  }

  lemma CountedKeys(counts: map<string, Counts>, provider: nat -> seq<Row>, n: nat)
    requires CountedRounds(counts, provider, n)
    ensures forall k :: 0 <= k < |NAMES| ==> NAMES[k] in counts
  {
    hide SummaryOf, NAMES;
  }

  lemma AllAccepted(counts: map<string, Counts>, provider: nat -> seq<Row>, records: seq<(string, Counts)>)
    requires CountedRounds(counts, provider, ROUNDS) && |records| == |NAMES|
    requires forall k :: 0 <= k < |NAMES| ==> records[k] == (NAMES[k], counts[NAMES[k]])
    ensures RoundsOk(provider)
    ensures forall k :: 0 <= k < |records| ==>
              records[k].0 == NAMES[k] && SummaryOf(records[k].1, Column(provider, k, ROUNDS))
    ensures (forall k :: 0 <= k < |records| ==> records[k].1.accepted == ROUNDS)
            <==> forall m, k :: 0 <= m < ROUNDS && 0 <= k < |NAMES| ==> IsAccepted(provider(m)[k])
  {
    hide RowOk, NAMES, IsAccepted, Extremes, Tally.Sum;
    forall k | 0 <= k < |NAMES|
      ensures SummaryOf(records[k].1, Column(provider, k, ROUNDS))
      ensures records[k].1.accepted == ROUNDS <==> forall m :: 0 <= m < ROUNDS ==> IsAccepted(provider(m)[k])
    {
      AllCounted(Column(provider, k, ROUNDS));
    }
    if forall m, k :: 0 <= m < ROUNDS && 0 <= k < |NAMES| ==> IsAccepted(provider(m)[k]) {
      forall k | 0 <= k < |NAMES| ensures records[k].1.accepted == ROUNDS {
      }
    }
  }

  // ------------------------------------------------------------------
  // The digest guard
  // ------------------------------------------------------------------

  /** What the guard keeps of one record. */
  datatype SafeRow = SafeRow(
    scenario: string, accepted: int, incomplete: int, rejected: int,
    contextComplete: int, contextIncomplete: int, notEvaluated: int, pairsMissing: int)

  datatype Guarded = Guarded(sameDigest: bool, allAccepted: bool, acceptedForReview: bool, rows: seq<SafeRow>)

  function Trimmed(name: string, c: Counts): SafeRow {
    SafeRow(name, c.accepted, c.incomplete, c.rejected,
            c.contextComplete, c.contextIncomplete, c.notEvaluated, c.pairsMissing)
  }

  /** The kept row repeats seven counts of the record, each under its own name. */
  ghost predicate Keeps(s: SafeRow, name: string, c: Counts) {
    && s.scenario == name
    && s.accepted == c.accepted && s.incomplete == c.incomplete && s.rejected == c.rejected
    && s.contextComplete == c.contextComplete && s.contextIncomplete == c.contextIncomplete
    && s.notEvaluated == c.notEvaluated && s.pairsMissing == c.pairsMissing
  }

  predicate InRange(n: int, limit: int) { 0 <= n <= limit }

  /** The checks on one record: ranges, two sums of three, and the pair bounds. */
  predicate GuardAccepts(c: Counts) {
    && InRange(c.accepted, ROUNDS) && InRange(c.incomplete, ROUNDS) && InRange(c.rejected, ROUNDS)
    && c.accepted + c.incomplete + c.rejected == ROUNDS
    && InRange(c.contextComplete, ROUNDS) && InRange(c.contextIncomplete, ROUNDS)
    && InRange(c.notEvaluated, ROUNDS) && InRange(c.pairsMissing, ROUNDS * SCENARIOS)
    && c.contextComplete + c.contextIncomplete + c.notEvaluated == ROUNDS
    && c.notEvaluated == c.rejected
    && c.contextIncomplete <= c.pairsMissing <= SCENARIOS * c.contextIncomplete
  }

  predicate GuardPasses(r: Report) {
    && r.rounds == ROUNDS && r.scenariosPerRound == SCENARIOS && |r.records| == SCENARIOS
    && forall k :: 0 <= k < |r.records| ==> r.records[k].0 == NAMES[k] && GuardAccepts(r.records[k].1)
  }

  /** Re-validates a report, keeping the bounded counts only. */
  method GuardReport(r: Report) returns (rows: Result<seq<SafeRow>>)
    ensures rows.Ok? <==> GuardPasses(r)
    ensures rows.Ok? ==> |rows.value| == |r.records|
                         && forall k :: 0 <= k < |rows.value| ==>
                              Keeps(rows.value[k], r.records[k].0, r.records[k].1)
  {
    hide GuardAccepts;
    NamesDistinct();
    if r.rounds != ROUNDS || r.scenariosPerRound != SCENARIOS || |r.records| != SCENARIOS {
      return Refused;
    }
    hide NAMES;
    var kept: seq<SafeRow> := [];
    for index := 0 to |r.records|
      invariant |kept| == index
      invariant forall k :: 0 <= k < index ==> r.records[k].0 == NAMES[k] && GuardAccepts(r.records[k].1)
      invariant forall k :: 0 <= k < index ==> Keeps(kept[k], r.records[k].0, r.records[k].1)
    {
      var (scenario, counts) := r.records[index];
      if scenario != NAMES[index] || !GuardAccepts(counts) {
        return Refused;
      }
      kept := kept + [Trimmed(scenario, counts)];
    }
    return Ok(kept);
  }

  /** The tally of valid rows adds up the way the guard demands, for any number of rounds. */
  lemma {:induction false} TallyBounds(rows: seq<Row>)
    requires forall k :: 0 <= k < |rows| ==> RowOk(rows[k])
    ensures Tally.Count(rows, IsAccepted) + Tally.Count(rows, IsIncomplete) + Tally.Count(rows, IsRejected) == |rows|
    ensures Tally.Count(rows, LosesNothing) + Tally.Count(rows, LosesPairs) + Tally.Count(rows, IsRejected) == |rows|
    ensures Tally.Count(rows, LosesPairs) <= Tally.Sum(rows, MissingIn) <= 3 * Tally.Count(rows, LosesPairs)
  {
    if rows == [] {
    } else {
      TallyBounds(rows[..|rows| - 1]);
    }
  }

  /** Whatever the three rounds report, the guard accepts. */
  lemma RunnerSatisfiesGuard(r: Report, provider: nat -> seq<Row>)
    requires RoundsOk(provider) && ReportOf(r, provider)
    ensures GuardPasses(r)
  {
    NamesDistinct();
    hide NAMES, RowOk, Extremes;
    forall k | 0 <= k < |r.records| ensures GuardAccepts(r.records[k].1) {
      TallyBounds(Column(provider, k, ROUNDS));
    }
  }

  /** A published row holds its scenario's tallies over the rows of all rounds. */
  ghost predicate Publishes(s: SafeRow, name: string, rows: seq<Row>) {
    && s.scenario == name
    && s.accepted == Tally.Count(rows, IsAccepted) && s.incomplete == Tally.Count(rows, IsIncomplete)
    && s.rejected == Tally.Count(rows, IsRejected) == s.notEvaluated
    && s.contextComplete == Tally.Count(rows, LosesNothing) && s.contextIncomplete == Tally.Count(rows, LosesPairs)
    && s.pairsMissing == Tally.Sum(rows, MissingIn)
  }

  lemma WellShaped(provider: nat -> seq<Row>)
    requires RoundsOk(provider)
    ensures forall m :: 0 <= m < 3 ==> |provider(m)| == |NAMES|
  {
    hide NAMES, RowOk;
  }

  lemma KeptIsPublished(s: SafeRow, name: string, c: Counts, rows: seq<Row>)
    requires Keeps(s, name, c) && SummaryOf(c, rows)
    ensures Publishes(s, name, rows)
  {
    hide Tally.Count, Tally.Sum, Extremes;
  }

  /** Digest before, three rounds, validation, digest after: the validation never
      refuses what the runner returned, so only the rounds and the two digest
      observations decide. */
  method RunGuarded(provider: nat -> seq<Row>, before: Option<string>, after: Option<string>)
    returns (r: Result<Guarded>)
    ensures r.Ok? <==> before.Some? && RoundsOk(provider) && after.Some?
    ensures r.Ok? ==> (r.value.sameDigest <==> before == after)
    ensures r.Ok? ==> (r.value.allAccepted
                       <==> forall m, k :: 0 <= m < 3 && 0 <= k < |NAMES| ==> IsAccepted(provider(m)[k]))
    ensures r.Ok? ==> (r.value.acceptedForReview <==> r.value.sameDigest && r.value.allAccepted)
    ensures r.Ok? ==> |r.value.rows| == |NAMES|
                      && forall k :: 0 <= k < |NAMES| ==>
                           Publishes(r.value.rows[k], NAMES[k], Column(provider, k, 3))
  {
    hide RoundOk, GuardPasses, IsAccepted, SummaryOf, NAMES, Keeps, Publishes, Column;
    if before.None? {
      return Refused;
    }
    var repeated := RunThreeRounds(provider);
    if repeated.Refused? {
      return Refused;
    }
    RunnerSatisfiesGuard(repeated.value, provider);
    var rows := GuardReport(repeated.value);
    if rows.Refused? || after.None? {
      return Refused;
    }
    var sameDigest := before == after;
    WellShaped(provider);
    forall k | 0 <= k < |NAMES| ensures Publishes(rows.value[k], NAMES[k], Column(provider, k, 3)) {
      KeptIsPublished(rows.value[k], NAMES[k], repeated.value.records[k].1, Column(provider, k, 3));
    }
    return Ok(Guarded(sameDigest, repeated.value.allAccepted, sameDigest && repeated.value.allAccepted, rows.value));
  }

  // ------------------------------------------------------------------
  // The guard refuses nothing that can happen and accepts nothing that cannot
  // ------------------------------------------------------------------

  /** The missing pairs of round `k`: one to three in each incomplete round. */
  function Share(c: Counts, k: nat): int {
    var spare := c.pairsMissing - c.contextIncomplete - 2 * k;
    if k >= c.contextIncomplete then 0 else if spare <= 0 then 1 else if spare == 1 then 2 else 3
  }

  /** Row `k` of three that realise the given counts: statuses in order, the
      missing pairs spread over the first incomplete rounds. */
  function Witness(c: Counts, k: nat): Row
    requires GuardAccepts(c) && k < ROUNDS
  {
    var status := if k < c.accepted then Accepted else if k < c.accepted + c.incomplete then Incomplete else Rejected;
    var missing := Share(c, k);
    if status.Rejected? then Row("", status, 0, None, None, None, None)
    else Row("", status, 0, Some(3), Some(3 - missing), Some(missing), Some(false))
  }

  /** Any counts the guard accepts are the counts of three possible rows. */
  lemma GuardIsExact(c: Counts)
    requires GuardAccepts(c)
    ensures var rows := [Witness(c, 0), Witness(c, 1), Witness(c, 2)];
            && (forall k :: 0 <= k < |rows| ==> RowOk(rows[k]))
            && SummaryOf(c.(minElapsed := Some(0), maxElapsed := Some(0)), rows)
  {
    WitnessTraits(c, 0);
    WitnessTraits(c, 1);
    WitnessTraits(c, 2);
    WitnessCounts(c);
    ZeroExtremes([Witness(c, 0), Witness(c, 1), Witness(c, 2)]);
    hide GuardAccepts, Tally.Count, Tally.Sum, Extremes, RowOk, Witness;
  }

  lemma WitnessCounts(c: Counts)
    requires GuardAccepts(c)
    ensures var rows := [Witness(c, 0), Witness(c, 1), Witness(c, 2)];
            && Tally.Count(rows, IsAccepted) == c.accepted
            && Tally.Count(rows, IsIncomplete) == c.incomplete
            && Tally.Count(rows, IsRejected) == c.rejected == c.notEvaluated
            && Tally.Count(rows, LosesNothing) == c.contextComplete
            && Tally.Count(rows, LosesPairs) == c.contextIncomplete
            && Tally.Sum(rows, MissingIn) == c.pairsMissing
  {
    WitnessTraits(c, 0);
    WitnessTraits(c, 1);
    WitnessTraits(c, 2);
    hide Tally.Count, Tally.Sum, RowOk, Witness, IsAccepted, IsIncomplete, IsRejected, LosesNothing, LosesPairs,
         MissingIn;
    var a, b, d := Witness(c, 0), Witness(c, 1), Witness(c, 2);
    CountThree(a, b, d, IsAccepted);
    CountThree(a, b, d, IsIncomplete);
    CountThree(a, b, d, IsRejected);
    CountThree(a, b, d, LosesNothing);
    CountThree(a, b, d, LosesPairs);
    SumThree(a, b, d, MissingIn);
  }

  lemma WitnessTraits(c: Counts, k: nat)
    requires GuardAccepts(c) && k < ROUNDS
    ensures var w := Witness(c, k);
            && RowOk(w) && w.elapsed == 0
            && (IsAccepted(w) <==> k < c.accepted)
            && (IsIncomplete(w) <==> c.accepted <= k < c.accepted + c.incomplete)
            && (IsRejected(w) <==> k >= c.accepted + c.incomplete)
            && (LosesPairs(w) <==> k < c.contextIncomplete)
            && (LosesNothing(w) <==> c.contextIncomplete <= k < c.accepted + c.incomplete)
            && MissingIn(w) == Share(c, k)
  {
  }

  lemma ZeroExtremes(rows: seq<Row>)
    requires rows != [] && forall k :: 0 <= k < |rows| ==> rows[k].elapsed == 0
    ensures Extremes(Some(0), Some(0), rows)
  {
    assert rows[0].elapsed == 0;
  }

  lemma CountThree(a: Row, b: Row, d: Row, p: Row -> bool)
    ensures Tally.Count([a, b, d], p)
         == (if p(a) then 1 else 0) + (if p(b) then 1 else 0) + if p(d) then 1 else 0
  {
    assert [a, b, d][..2] == [a, b] && [a, b][..1] == [a];
    assert Tally.Count([a], p) == if p(a) then 1 else 0;
    assert Tally.Count([a, b], p) == Tally.Count([a], p) + if p(b) then 1 else 0;
  }

  lemma SumThree(a: Row, b: Row, d: Row, f: Row -> int)
    ensures Tally.Sum([a, b, d], f) == f(a) + f(b) + f(d)
  {
    assert [a, b, d][..2] == [a, b] && [a, b][..1] == [a];
    assert Tally.Sum([a], f) == f(a);
    assert Tally.Sum([a, b], f) == Tally.Sum([a], f) + f(b);
  }
}

/** The published study report: every bucket with its rates and its interval. */
module OcrReport {
  import opened Outcomes
  import opened Marks
  import opened OcrStudy
  import opened Tally
  import opened Wilson

  /** A bucket, then recall with its interval, insertions and retrieval. */
  datatype Summary = Summary(
    bucket: Bucket, recall: Option<real>, interval: Option<Interval>,
    insertions: Option<real>, retrieval: Option<real>)

  datatype Published = Published(pages: nat, overall: Summary, byKind: map<string, Summary>)

  /** An exact square root. */
  ghost predicate IsSqrt(sqrt: real -> real) {
    forall x :: x >= 0.0 ==> sqrt(x) >= 0.0 && sqrt(x) * sqrt(x) == x
  }

  function RootOf(sqrt: real -> real, success: nat, total: nat): real {
    if total == 0 then 0.0 else sqrt(Radicand(Z, success, total))
  }

  function Summarize(b: Bucket, sqrt: real -> real): Summary
    requires b.Keys == COUNTERS
  {
    var n, found := b[PositiveMeasured], b[Found];
    Summary(b, Rate(found, n), StudyInterval(RootOf(sqrt, found, n), found, n),
            Rate(b[Inserted], b[NegativeMeasured]), Rate(b[SearchHit], b[Searched]))
  }

  /** A share of `part` in `part + rest`, exact and in the unit interval. */
  ghost predicate ShareOf(r: Option<real>, part: nat, rest: nat) {
    && (r.Some? <==> part + rest > 0)
    && (r.Some? ==>
          && 0.0 <= r.value <= 1.0 && (r.value == 0.0 <==> part == 0) && (r.value == 1.0 <==> rest == 0)
          && r.value * (part + rest) as real == part as real)
  }

  /** The interval exists with the share, its ends are the two solutions of the
      score equation, and it contains the share and touches an end only with it. */
  ghost predicate IntervalOf(i: Option<Interval>, r: Option<real>, part: nat, rest: nat) {
    && (i.Some? <==> r.Some?)
    && (r.Some? ==>
          && 0.0 <= i.value.lower <= r.value <= i.value.upper <= 1.0
          && (i.value.lower == 0.0 <==> part == 0) && (i.value.upper == 1.0 <==> rest == 0)
          && (part + rest > 0 ==>
                && i.value.lower < i.value.upper
                && ScoreEnd(i.value.lower, part, part + rest) && ScoreEnd(i.value.upper, part, part + rest)))
  }

  /** What a summary says of the spans in its scope: recall is found against
      missing, with its interval, insertions are a share of the measured negatives,
      and retrieval is hits against misses. */
  ghost predicate SummaryMeans(s: Summary, pages: seq<Page>, scope: Scope) {
    && s.bucket.Keys == COUNTERS && Exact(s.bucket, Flatten(pages), scope)
    && ShareOf(s.recall, s.bucket[Found], s.bucket[Missing])
    && IntervalOf(s.interval, s.recall, s.bucket[Found], s.bucket[Missing])
    && s.bucket[Inserted] <= s.bucket[NegativeMeasured]
    && ShareOf(s.insertions, s.bucket[Inserted], s.bucket[NegativeMeasured] - s.bucket[Inserted])
    && ShareOf(s.retrieval, s.bucket[SearchHit], s.bucket[SearchMiss])
  }

  lemma RateIsShareOf(part: nat, rest: nat)
    ensures ShareOf(Rate(part, part + rest), part, rest)
  {
    RateFacts(part, rest);
    hide Rate;
  }

  lemma IntervalIsOf(sqrt: real -> real, part: nat, rest: nat)
    requires IsSqrt(sqrt)
    ensures var n := part + rest;
            IntervalOf(StudyInterval(RootOf(sqrt, part, n), part, n), Rate(part, n), part, rest)
  {
    var n := part + rest;
    if n > 0 {
      RadicandIsNonNegative(Z, part, n);
      assert IsRoot(RootOf(sqrt, part, n), Z, part, n);
      RateIsShare(part, n);
    }
    StudyIntervalCovers(RootOf(sqrt, part, n), part, n);
    hide StudyInterval, RootOf, IsRoot, Share, Rate, IsSqrt, ScoreEnd;
  }

  /** Summarizing an exact bucket publishes exact figures. */
  lemma SummaryIsExact(b: Bucket, sqrt: real -> real, pages: seq<Page>, scope: Scope)
    requires IsSqrt(sqrt) && b.Keys == COUNTERS && Exact(b, Flatten(pages), scope)
    ensures SummaryMeans(Summarize(b, sqrt), pages, scope)
  {
    hide *;
    AllCounters(b);
    BucketPartitions(pages, b, scope);
    RateIsShareOf(b[Found], b[Missing]);
    IntervalIsOf(sqrt, b[Found], b[Missing]);
    RateIsShareOf(b[Inserted], b[NegativeMeasured] - b[Inserted]);
    RateIsShareOf(b[SearchHit], b[SearchMiss]);
    SummaryParts(b, sqrt, pages, scope);
  }

  lemma AllCounters(b: Bucket)
    requires b.Keys == COUNTERS
    ensures forall c: Counter :: c in b
  {
  }

  lemma SummaryParts(b: Bucket, sqrt: real -> real, pages: seq<Page>, scope: Scope)
    requires b.Keys == COUNTERS && Exact(b, Flatten(pages), scope) && forall c: Counter :: c in b
    requires b[PositiveMeasured] == b[Found] + b[Missing] && b[Searched] == b[SearchHit] + b[SearchMiss]
    requires b[Inserted] <= b[NegativeMeasured]
    requires ShareOf(Rate(b[Found], b[PositiveMeasured]), b[Found], b[Missing])
    requires IntervalOf(
               StudyInterval(RootOf(sqrt, b[Found], b[PositiveMeasured]), b[Found], b[PositiveMeasured]),
               Rate(b[Found], b[PositiveMeasured]), b[Found], b[Missing])
    requires ShareOf(Rate(b[Inserted], b[NegativeMeasured]), b[Inserted], b[NegativeMeasured] - b[Inserted])
    requires ShareOf(Rate(b[SearchHit], b[Searched]), b[SearchHit], b[SearchMiss])
    ensures SummaryMeans(Summarize(b, sqrt), pages, scope)
  {
    hide COUNTERS, Exact, Flatten, StudyInterval, RootOf, Rate, ShareOf, IntervalOf;
  }

  lemma RateIsShare(success: nat, total: nat)
    requires total > 0
    ensures Rate(success, total) == Some(Share(success, total))
  {
  }

  /** The whole study: accepted exactly when valid, and every published figure is
      exact, overall and for each kind. */
  method PublishStudy(pages: seq<Page>, sqrt: real -> real) returns (r: Result<Published>)
    requires IsSqrt(sqrt)
    ensures r.Ok? <==> Accepted(pages)
    ensures r.Ok? ==>
              && r.value.pages == |pages| && SummaryMeans(r.value.overall, pages, None)
              && (forall k :: k in r.value.byKind <==> k in KINDS)
              && (forall k :: k in r.value.byKind ==> SummaryMeans(r.value.byKind[k], pages, Some(k)))
  {
    hide *;
    var study := EvaluateLocalStudy(pages);
    if study.Refused? {
      return Refused;
    }
    var Report(count, overall, byKind) := study.value;
    StudyBuckets(overall, byKind, pages);
    SummaryIsExact(overall, sqrt, pages, None);
    forall k | k in byKind ensures SummaryMeans(Summarize(byKind[k], sqrt), pages, Some(k)) {
      SummaryIsExact(byKind[k], sqrt, pages, Some(k));
    }
    return Ok(Published(count, Summarize(overall, sqrt), map k | k in byKind :: Summarize(byKind[k], sqrt)));
  }

  lemma StudyBuckets(overall: Bucket, byKind: map<string, Bucket>, pages: seq<Page>)
    requires StudyCounted(overall, byKind, Flatten(pages))
    ensures overall.Keys == COUNTERS && Exact(overall, Flatten(pages), None)
    ensures forall k :: k in byKind <==> k in KINDS
    ensures forall k :: k in byKind ==> byKind[k].Keys == COUNTERS && Exact(byKind[k], Flatten(pages), Some(k))
  {
    hide KINDS, Flatten, Num;
  }
}

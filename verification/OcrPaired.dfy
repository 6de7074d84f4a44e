/** Two studies of the same pages compared span by span. */
module OcrPaired {
  import opened Outcomes
  import opened Marks
  import opened OcrStudy
  import opened Tally

  datatype Label = Unmeasured | Present | Absent

  function LabelOf(page: Page, span: Span): Label {
    if !page.complete then Unmeasured
    else if Contains(page.ocrText, span.literal) then Present else Absent
  }

  /** The twelve counters of the report, then the labels that explain them. */
  datatype PairFlag =
    | PositiveSpans | BothPresent | BothMissing | Recovered | Lost | PositiveUnmeasured
    | NegativeSpans | ClearBoth | InsertedBoth | NewInsertion | RemovedInsertion | NegativeUnmeasured
    | BaselineFound | BaselineFoundPaired | BaselineFoundUnpaired
    | CandidateFound | CandidateFoundPaired | CandidateFoundUnpaired
    | BaselineInserted | BaselineInsertedPaired | BaselineInsertedUnpaired
    | CandidateInserted | CandidateInsertedPaired | CandidateInsertedUnpaired

  const PAIR_COUNTERS: set<PairFlag> :=
    {PositiveSpans, BothPresent, BothMissing, Recovered, Lost, PositiveUnmeasured,
     NegativeSpans, ClearBoth, InsertedBoth, NewInsertion, RemovedInsertion, NegativeUnmeasured}

  const BLANK_PAIRS: map<PairFlag, nat> := map c | c in PAIR_COUNTERS :: 0

  /** What each flag says about the expectation and the two labels. */
  predicate PairHolds(f: PairFlag, expected: bool, b: Label, c: Label) {
    match f
    case PositiveSpans => expected
    case BothPresent => expected && b == Present && c == Present
    case BothMissing => expected && b == Absent && c == Absent
    case Recovered => expected && b == Absent && c == Present
    case Lost => expected && b == Present && c == Absent
    case PositiveUnmeasured => expected && (b == Unmeasured || c == Unmeasured)
    case NegativeSpans => !expected
    case ClearBoth => !expected && b == Absent && c == Absent
    case InsertedBoth => !expected && b == Present && c == Present
    case NewInsertion => !expected && b == Absent && c == Present
    case RemovedInsertion => !expected && b == Present && c == Absent
    case NegativeUnmeasured => !expected && (b == Unmeasured || c == Unmeasured)
    case BaselineFound => expected && b == Present
    case BaselineFoundPaired => expected && b == Present && c != Unmeasured
    case BaselineFoundUnpaired => expected && b == Present && c == Unmeasured
    case CandidateFound => expected && c == Present
    case CandidateFoundPaired => expected && c == Present && b != Unmeasured
    case CandidateFoundUnpaired => expected && c == Present && b == Unmeasured
    case BaselineInserted => !expected && b == Present
    case BaselineInsertedPaired => !expected && b == Present && c != Unmeasured
    case BaselineInsertedUnpaired => !expected && b == Present && c == Unmeasured
    case CandidateInserted => !expected && c == Present
    case CandidateInsertedPaired => !expected && c == Present && b != Unmeasured
    case CandidateInsertedUnpaired => !expected && c == Present && b == Unmeasured
  }

  /** The counters the comparison increments, branch by branch. */
  function PairIncrements(expected: bool, b: Label, c: Label): seq<PairFlag> {
    if expected then
      [PositiveSpans,
       if b == Unmeasured || c == Unmeasured then PositiveUnmeasured
       else if b == c == Present then BothPresent
       else if b == c == Absent then BothMissing
       else if b == Absent && c == Present then Recovered
       else Lost]
    else
      [NegativeSpans,
       if b == Unmeasured || c == Unmeasured then NegativeUnmeasured
       else if b == c == Absent then ClearBoth
       else if b == c == Present then InsertedBoth
       else if b == Absent && c == Present then NewInsertion
       else RemovedInsertion]
  }

  /** One counter of the side and one of the outcome, each exactly by its meaning. */
  lemma PairIncrementsAreExact(expected: bool, b: Label, c: Label)
    ensures Distinct(PairIncrements(expected, b, c))
    ensures forall f :: f in PAIR_COUNTERS ==> (f in PairIncrements(expected, b, c) <==> PairHolds(f, expected, b, c))
  {
  }

  // ------------------------------------------------------------------
  // Lookup tables
  // ------------------------------------------------------------------

  /** The page index is a dictionary: a later page would replace an earlier one. */
  function FindPage(pages: seq<Page>, caseRef: string, locator: string): Option<Page> {
    if pages == [] then None
    else
      var p := pages[|pages| - 1];
      if p.caseRef == caseRef && p.locator == locator then Some(p)
      else FindPage(pages[..|pages| - 1], caseRef, locator)
  }

  function FindSpan(spans: seq<Span>, ref: string): Option<Span> {
    if spans == [] then None
    else
      var s := spans[|spans| - 1];
      if s.ref == ref then Some(s) else FindSpan(spans[..|spans| - 1], ref)
  }

  lemma {:induction false} FoundPage(pages: seq<Page>, caseRef: string, locator: string)
    ensures FindPage(pages, caseRef, locator).Some?
            <==> exists i :: 0 <= i < |pages| && pages[i].caseRef == caseRef && pages[i].locator == locator
    ensures FindPage(pages, caseRef, locator).Some? ==>
              var p := FindPage(pages, caseRef, locator).value;
              p in pages && p.caseRef == caseRef && p.locator == locator
  {
    if pages == [] {
    } else {
      var n := |pages| - 1;
      assert pages == pages[..n] + [pages[n]];
      FoundPage(pages[..n], caseRef, locator);
    }
  }

  lemma {:induction false} FoundSpan(spans: seq<Span>, ref: string)
    ensures FindSpan(spans, ref).Some? <==> exists i :: 0 <= i < |spans| && spans[i].ref == ref
    ensures FindSpan(spans, ref).Some? ==> FindSpan(spans, ref).value in spans && FindSpan(spans, ref).value.ref == ref
  {
    if spans == [] {
    } else {
      var n := |spans| - 1;
      assert spans == spans[..n] + [spans[n]];
      FoundSpan(spans[..n], ref);
    }
  }

  /** In an accepted study a page is found under its own key. */
  lemma PageFindsItself(pages: seq<Page>, i: nat)
    requires i < |pages| && DistinctRefs(pages)
    ensures FindPage(pages, pages[i].caseRef, pages[i].locator) == Some(pages[i])
  {
    FoundPage(pages, pages[i].caseRef, pages[i].locator);
    var p := FindPage(pages, pages[i].caseRef, pages[i].locator).value;
    var j :| 0 <= j < |pages| && pages[j] == p;
    hide DistinctSpanRefs;
    assert i == j;
  }

  lemma SpanFindsItself(spans: seq<Span>, i: nat)
    requires i < |spans| && DistinctSpanRefs(spans)
    ensures FindSpan(spans, spans[i].ref) == Some(spans[i])
  {
    FoundSpan(spans, spans[i].ref);
    var s := FindSpan(spans, spans[i].ref).value;
    var j :| 0 <= j < |spans| && spans[j] == s;
    assert i == j;
  }

  // ------------------------------------------------------------------
  // Comparable studies
  // ------------------------------------------------------------------

  /** The page-level tests before any span is looked at. */
  ghost predicate SameSource(p: Page, q: Page) {
    && p.version == q.version && p.sourceSha == q.sourceSha && p.refText == q.refText
    && SameRefs(p.spans, q.spans)
    && (p.complete && q.complete && p.ocrText != q.ocrText ==> p.extractionSha != q.extractionSha)
  }

  ghost predicate SameRefs(a: seq<Span>, b: seq<Span>) {
    && (forall i :: 0 <= i < |a| ==> FindSpan(b, a[i].ref).Some?)
    && (forall i :: 0 <= i < |b| ==> FindSpan(a, b[i].ref).Some?)
  }

  predicate SameSpan(a: Span, b: Option<Span>) {
    b.Some? && a.kind == b.value.kind && a.literal == b.value.literal && a.expected == b.value.expected
  }

  predicate SpansMatch(p: Page, q: Page, n: nat)
    requires n <= |p.spans|
  {
    forall j :: 0 <= j < n ==> SameSpan(p.spans[j], FindSpan(q.spans, p.spans[j].ref))
  }

  ghost predicate SamePages(left: seq<Page>, right: seq<Page>) {
    && (forall i :: 0 <= i < |left| ==> FindPage(right, left[i].caseRef, left[i].locator).Some?)
    && (forall i :: 0 <= i < |right| ==> FindPage(left, right[i].caseRef, right[i].locator).Some?)
  }

  /** Page `p` agrees with the page of the same key in `right`. */
  ghost predicate PageMatches(p: Page, right: seq<Page>) {
    var q := FindPage(right, p.caseRef, p.locator);
    q.Some? && SameSource(p, q.value) && SpansMatch(p, q.value, |p.spans|)
  }

  // The sets that the tests above are decided by.

  function PageKeys(pages: seq<Page>): set<(string, string)> {
    set i | 0 <= i < |pages| :: (pages[i].caseRef, pages[i].locator)
  }

  function SpanRefs(spans: seq<Span>): set<string> {
    set i | 0 <= i < |spans| :: spans[i].ref
  }

  lemma KeysDecide(left: seq<Page>, right: seq<Page>)
    ensures PageKeys(left) == PageKeys(right) <==> SamePages(left, right)
  {
    forall i | 0 <= i < |left|
      ensures FindPage(right, left[i].caseRef, left[i].locator).Some?
              <==> (left[i].caseRef, left[i].locator) in PageKeys(right)
    {
      FoundPage(right, left[i].caseRef, left[i].locator);
    }
    forall i | 0 <= i < |right|
      ensures FindPage(left, right[i].caseRef, right[i].locator).Some?
              <==> (right[i].caseRef, right[i].locator) in PageKeys(left)
    {
      FoundPage(left, right[i].caseRef, right[i].locator);
    }
    hide FindPage;
  }

  lemma RefsDecide(a: seq<Span>, b: seq<Span>)
    ensures SpanRefs(a) == SpanRefs(b) <==> SameRefs(a, b)
  {
    forall i | 0 <= i < |a| ensures FindSpan(b, a[i].ref).Some? <==> a[i].ref in SpanRefs(b) {
      FoundSpan(b, a[i].ref);
    }
    forall i | 0 <= i < |b| ensures FindSpan(a, b[i].ref).Some? <==> b[i].ref in SpanRefs(a) {
      FoundSpan(a, b[i].ref);
    }
    hide FindSpan;
  }

  method CheckSource(p: Page, q: Page) returns (ok: bool)
    ensures ok <==> SameSource(p, q)
  {
    RefsDecide(p.spans, q.spans);
    hide SameRefs;
    if p.version != q.version || p.sourceSha != q.sourceSha || p.refText != q.refText {
      return false;
    }
    if SpanRefs(p.spans) != SpanRefs(q.spans) {
      return false;
    }
    if p.complete && q.complete && p.ocrText != q.ocrText {
      return p.extractionSha != q.extractionSha;
    }
    return true;
  }

  /** Kinds each registered source must be represented with, by case. */
  type Expected = map<string, set<string>>

  ghost predicate Represented(left: seq<Page>, n: nat, caseRef: string, kind: string)
    requires n <= |left|
  {
    exists i, j :: 0 <= i < n && 0 <= j < |left[i].spans| && left[i].caseRef == caseRef && left[i].spans[j].kind == kind
  }

  ghost predicate Covered(left: seq<Page>, expected: Expected) {
    forall c, k :: c in expected && k in expected[c] ==> Represented(left, |left|, c, k)
  }

  ghost predicate Matched(left: seq<Page>, right: seq<Page>, expected: Expected, n: nat)
    requires n <= |left|
  {
    forall i :: 0 <= i < n ==> left[i].caseRef in expected && PageMatches(left[i], right)
  }

  ghost predicate Comparable(left: seq<Page>, right: seq<Page>, expected: Expected) {
    && Accepted(left) && Accepted(right) && SamePages(left, right)
    && Matched(left, right, expected, |left|) && Covered(left, expected)
  }

  // ------------------------------------------------------------------
  // Paired spans
  // ------------------------------------------------------------------

  type PairMark = Mark<SpanKey, PairFlag>

  function PairFlags(p: Page, span: Span, right: seq<Page>): set<PairFlag> {
    var q := FindPage(right, p.caseRef, p.locator);
    if q.None? then {}
    else
      var t := FindSpan(q.value.spans, span.ref);
      if t.None? then {}
      else set f: PairFlag | PairHolds(f, span.expected, LabelOf(p, span), LabelOf(q.value, t.value))
  }

  function PairMarkOf(p: Page, span: Span, right: seq<Page>): PairMark {
    Mark(SpanKey(p.caseRef, p.locator, span.ref), span.kind, PairFlags(p, span, right))
  }

  function PagePairs(p: Page, right: seq<Page>): (ms: seq<PairMark>)
    ensures |ms| == |p.spans| && forall i :: 0 <= i < |ms| ==> ms[i] == PairMarkOf(p, p.spans[i], right)
  {
    seq(|p.spans|, i requires 0 <= i < |p.spans| => PairMarkOf(p, p.spans[i], right))
  }

  /** Every span of `left` with its counterpart in `right`, in the order of `left`. */
  function Pairs(left: seq<Page>, right: seq<Page>): seq<PairMark> {
    if left == [] then [] else Pairs(left[..|left| - 1], right) + PagePairs(left[|left| - 1], right)
  }

  lemma {:induction false} PairsAlign(left: seq<Page>, right: seq<Page>)
    ensures |Pairs(left, right)| == |Flatten(left)|
  {
    if left == [] {
    } else {
      PairsAlign(left[..|left| - 1], right);
    }
  }

  lemma {:induction false} PairPlace(left: seq<Page>, right: seq<Page>, i: nat, j: nat)
    requires i < |left| && j < |left[i].spans|
    ensures |Flatten(left[..i])| + j < |Pairs(left, right)|
    ensures Pairs(left, right)[|Flatten(left[..i])| + j] == PairMarkOf(left[i], left[i].spans[j], right)
  {
    hide PairMarkOf, MarkOf;
    var n := |left| - 1;
    PairsAlign(left[..n], right);
    if i == n {
    } else {
      assert left[..n][..i] == left[..i];
      PairPlace(left[..n], right, i, j);
    }
  }

  /** Item `k` of the pairs and item `k` of the flattened study are one span. */
  lemma PairOrigin(left: seq<Page>, right: seq<Page>, k: nat) returns (i: nat, j: nat)
    requires k < |Pairs(left, right)|
    ensures k < |Flatten(left)| && i < |left| && j < |left[i].spans|
    ensures Flatten(left)[k] == MarkOf(left[i], left[i].spans[j])
    ensures Pairs(left, right)[k] == PairMarkOf(left[i], left[i].spans[j], right)
  {
    PairsAlign(left, right);
    i, j := Origin(left, k);
    PairPlace(left, right, i, j);
  }

  lemma PairKeysDistinct(left: seq<Page>, right: seq<Page>)
    requires DistinctRefs(left)
    ensures DistinctKeys(Pairs(left, right))
  {
    FlattenKeysDistinct(left);
    PairsAlign(left, right);
    hide Flatten, Pairs;
    forall k | 0 <= k < |Pairs(left, right)| ensures Pairs(left, right)[k].key == Flatten(left)[k].key {
      var i, j := PairOrigin(left, right, k);
    }
  }

  // ------------------------------------------------------------------
  // Swapping the two studies
  // ------------------------------------------------------------------

  function Swap(f: PairFlag): PairFlag {
    match f
    case Recovered => Lost
    case Lost => Recovered
    case NewInsertion => RemovedInsertion
    case RemovedInsertion => NewInsertion
    case BaselineFound => CandidateFound
    case CandidateFound => BaselineFound
    case BaselineFoundPaired => CandidateFoundPaired
    case CandidateFoundPaired => BaselineFoundPaired
    case BaselineFoundUnpaired => CandidateFoundUnpaired
    case CandidateFoundUnpaired => BaselineFoundUnpaired
    case BaselineInserted => CandidateInserted
    case CandidateInserted => BaselineInserted
    case BaselineInsertedPaired => CandidateInsertedPaired
    case CandidateInsertedPaired => BaselineInsertedPaired
    case BaselineInsertedUnpaired => CandidateInsertedUnpaired
    case CandidateInsertedUnpaired => BaselineInsertedUnpaired
    case _ => f
  }

  lemma SwapIsExact(f: PairFlag, expected: bool, b: Label, c: Label)
    ensures Swap(Swap(f)) == f
    ensures PairHolds(f, expected, b, c) <==> PairHolds(Swap(f), expected, c, b)
  {
  }

  /** The counterpart of span `j` of page `i`, seen from the other study. */
  lemma Counterpart(left: seq<Page>, right: seq<Page>, i: nat, j: nat) returns (a: nat, b: nat)
    requires DistinctRefs(left) && DistinctRefs(right)
    requires i < |left| && j < |left[i].spans| && PageMatches(left[i], right)
    ensures a < |right| && b < |right[a].spans|
    ensures right[a].caseRef == left[i].caseRef && right[a].locator == left[i].locator
    ensures right[a].spans[b].ref == left[i].spans[j].ref && SameSpan(left[i].spans[j], Some(right[a].spans[b]))
    ensures FindPage(right, left[i].caseRef, left[i].locator) == Some(right[a])
    ensures FindSpan(right[a].spans, left[i].spans[j].ref) == Some(right[a].spans[b])
  {
    var p, s := left[i], left[i].spans[j];
    FoundPage(right, p.caseRef, p.locator);
    var q := FindPage(right, p.caseRef, p.locator).value;
    a :| 0 <= a < |right| && right[a] == q;
    FoundSpan(q.spans, s.ref);
    var t := FindSpan(q.spans, s.ref).value;
    b :| 0 <= b < |q.spans| && q.spans[b] == t;
    assert SameSpan(p.spans[j], FindSpan(q.spans, p.spans[j].ref));
  }

  lemma FlagsAre(p: Page, span: Span, right: seq<Page>, q: Page, t: Span, f: PairFlag)
    requires FindPage(right, p.caseRef, p.locator) == Some(q) && FindSpan(q.spans, span.ref) == Some(t)
    ensures var m := PairMarkOf(p, span, right);
            && m.key == SpanKey(p.caseRef, p.locator, span.ref) && m.kind == span.kind
            && (f in m.flags <==> PairHolds(f, span.expected, LabelOf(p, span), LabelOf(q, t)))
  {
    hide FindPage, FindSpan, PairHolds, LabelOf;
  }

  /** Two spans that find each other carry mirrored flags. */
  lemma FlagsMirror(left: seq<Page>, right: seq<Page>, p: Page, s: Span, q: Page, t: Span, f: PairFlag)
    requires FindPage(right, p.caseRef, p.locator) == Some(q) && FindSpan(q.spans, s.ref) == Some(t)
    requires FindPage(left, q.caseRef, q.locator) == Some(p) && FindSpan(p.spans, t.ref) == Some(s)
    requires s.expected == t.expected
    ensures f in PairMarkOf(p, s, right).flags <==> Swap(f) in PairMarkOf(q, t, left).flags
  {
    SwapIsExact(f, s.expected, LabelOf(p, s), LabelOf(q, t));
    FlagsAre(p, s, right, q, t, f);
    FlagsAre(q, t, left, p, s, Swap(f));
    hide *;
  }

  lemma MirroredMark(left: seq<Page>, right: seq<Page>, i: nat, j: nat, f: PairFlag) returns (k: nat)
    requires DistinctRefs(left) && DistinctRefs(right)
    requires i < |left| && j < |left[i].spans| && PageMatches(left[i], right)
    ensures k < |Pairs(right, left)|
    ensures var m := PairMarkOf(left[i], left[i].spans[j], right);
            Pairs(right, left)[k].key == m.key && Pairs(right, left)[k].kind == m.kind
            && (f in m.flags <==> Swap(f) in Pairs(right, left)[k].flags)
  {
    var a, b := Counterpart(left, right, i, j);
    PageFindsItself(left, i);
    SpanFindsItself(left[i].spans, j);
    PairPlace(right, left, a, b);
    k := |Flatten(right[..a])| + b;
    var s, t := left[i].spans[j], right[a].spans[b];
    FlagsMirror(left, right, left[i], s, right[a], t, f);
    hide *;
  }

  lemma HitsMirror(left: seq<Page>, right: seq<Page>, f: PairFlag, scope: Scope)
    requires DistinctRefs(left) && DistinctRefs(right)
    requires forall i :: 0 <= i < |left| ==> PageMatches(left[i], right)
    ensures HitsMatched(Pairs(left, right), f, Pairs(right, left), Swap(f), scope)
  {
    hide Pairs, Flatten, PageMatches, PairMarkOf, Swap, DistinctRefs;
    forall k | 0 <= k < |Pairs(left, right)| && Hits(Pairs(left, right)[k], scope, f)
      ensures HasHit(Pairs(right, left), Pairs(left, right)[k].key, scope, Swap(f))
    {
      var i, j := PairOrigin(left, right, k);
      var l := MirroredMark(left, right, i, j, f);
      assert Hits(Pairs(right, left)[l], scope, Swap(f));
    }
  }

  /** Each paired counter of the swapped comparison is the mirrored counter. */
  lemma PairsSwap(left: seq<Page>, right: seq<Page>, f: PairFlag, scope: Scope)
    requires DistinctRefs(left) && DistinctRefs(right)
    requires forall i :: 0 <= i < |left| ==> PageMatches(left[i], right)
    requires forall i :: 0 <= i < |right| ==> PageMatches(right[i], left)
    ensures Num(Pairs(left, right), scope, f) == Num(Pairs(right, left), scope, Swap(f))
  {
    HitsMirror(left, right, f, scope);
    HitsMirror(right, left, Swap(f), scope);
    SwapIsExact(f, true, Present, Present);
    PairKeysDistinct(left, right);
    PairKeysDistinct(right, left);
    NumAgree(Pairs(left, right), f, Pairs(right, left), Swap(f), scope);
  }

  // ------------------------------------------------------------------
  // Acceptance is symmetric
  // ------------------------------------------------------------------

  lemma PageMatchesBack(left: seq<Page>, right: seq<Page>, i: nat, a: nat)
    requires DistinctRefs(left) && DistinctRefs(right) && i < |left| && a < |right|
    requires left[i].caseRef == right[a].caseRef && left[i].locator == right[a].locator
    requires PageMatches(left[i], right)
    ensures PageMatches(right[a], left)
  {
    PageFindsItself(left, i);
    PageFindsItself(right, a);
    var p, q := left[i], right[a];
    forall b | 0 <= b < |q.spans| ensures SameSpan(q.spans[b], FindSpan(p.spans, q.spans[b].ref)) {
      FoundSpan(p.spans, q.spans[b].ref);
      var s := FindSpan(p.spans, q.spans[b].ref).value;
      var j :| 0 <= j < |p.spans| && p.spans[j] == s;
      assert DistinctSpanRefs(q.spans);
      SpanFindsItself(q.spans, b);
      assert SameSpan(p.spans[j], FindSpan(q.spans, p.spans[j].ref));
    }
  }

  lemma AllMatchBack(left: seq<Page>, right: seq<Page>, expected: Expected)
    requires DistinctRefs(left) && DistinctRefs(right) && SamePages(left, right)
    requires Matched(left, right, expected, |left|)
    ensures Matched(right, left, expected, |right|)
  {
    hide PageMatches, DistinctRefs;
    forall a | 0 <= a < |right| ensures right[a].caseRef in expected && PageMatches(right[a], left) {
      FoundPage(left, right[a].caseRef, right[a].locator);
      var i :| 0 <= i < |left| && left[i].caseRef == right[a].caseRef && left[i].locator == right[a].locator;
      PageMatchesBack(left, right, i, a);
    }
  }

  lemma RepresentedBack(left: seq<Page>, right: seq<Page>, expected: Expected, caseRef: string, kind: string)
    requires DistinctRefs(left) && DistinctRefs(right) && Matched(left, right, expected, |left|)
    requires Represented(left, |left|, caseRef, kind)
    ensures Represented(right, |right|, caseRef, kind)
  {
    var i, j :| 0 <= i < |left| && 0 <= j < |left[i].spans|
                && left[i].caseRef == caseRef && left[i].spans[j].kind == kind;
    var a, b := Counterpart(left, right, i, j);
    assert right[a].caseRef == caseRef && right[a].spans[b].kind == kind;
  }

  lemma ComparableBack(left: seq<Page>, right: seq<Page>, expected: Expected)
    requires Comparable(left, right, expected)
    ensures Comparable(right, left, expected)
    ensures DistinctRefs(left) && DistinctRefs(right)
    ensures forall i :: 0 <= i < |left| ==> PageMatches(left[i], right)
    ensures forall i :: 0 <= i < |right| ==> PageMatches(right[i], left)
  {
    AcceptedIsDistinct(left);
    AcceptedIsDistinct(right);
    AllMatchBack(left, right, expected);
    forall c, k | c in expected && k in expected[c] ensures Represented(right, |right|, c, k) {
      RepresentedBack(left, right, expected, c, k);
    }
    hide Accepted, Matched, Represented;
  }

  /** Swapping baseline and candidate preserves acceptance, exchanges recovered
      with lost and new with removed insertions, and leaves every other counter
      alone, for each kind and overall, whatever order either study is listed in. */
  lemma SwapTheorem(left: seq<Page>, right: seq<Page>, expected: Expected, f: PairFlag, scope: Scope)
    ensures Comparable(left, right, expected) <==> Comparable(right, left, expected)
    ensures Comparable(left, right, expected)
            ==> Num(Pairs(left, right), scope, f) == Num(Pairs(right, left), scope, Swap(f))
  {
    if Comparable(right, left, expected) {
      ComparableBack(right, left, expected);
    }
    if Comparable(left, right, expected) {
      ComparableBack(left, right, expected);
      hide PageMatches;
      PairsSwap(left, right, f, scope);
    }
  }

  // ------------------------------------------------------------------
  // Agreement with the two studies' own counts
  // ------------------------------------------------------------------

  lemma BaselineFlags(left: seq<Page>, right: seq<Page>, i: nat, j: nat)
    requires i < |left| && j < |left[i].spans| && PageMatches(left[i], right)
    ensures var m, n := MarkOf(left[i], left[i].spans[j]), PairMarkOf(left[i], left[i].spans[j], right);
            && (Found in m.flags <==> BaselineFound in n.flags)
            && (Inserted in m.flags <==> BaselineInserted in n.flags)
            && (Positive in m.flags <==> PositiveSpans in n.flags)
            && (Negative in m.flags <==> NegativeSpans in n.flags)
  {
    var p, s := left[i], left[i].spans[j];
    FlagIs(p, s, Found);
    FlagIs(p, s, Inserted);
    FlagIs(p, s, Positive);
    FlagIs(p, s, Negative);
    assert SameSpan(p.spans[j], FindSpan(FindPage(right, p.caseRef, p.locator).value.spans, s.ref));
    hide Contains, FindSpan, FindPage, MarkOf, SameSource, SpansMatch;
  }

  lemma BaselineNums(left: seq<Page>, right: seq<Page>, scope: Scope)
    requires forall i :: 0 <= i < |left| ==> PageMatches(left[i], right)
    ensures Num(Flatten(left), scope, Found) == Num(Pairs(left, right), scope, BaselineFound)
    ensures Num(Flatten(left), scope, Inserted) == Num(Pairs(left, right), scope, BaselineInserted)
    ensures Num(Flatten(left), scope, Positive) == Num(Pairs(left, right), scope, PositiveSpans)
    ensures Num(Flatten(left), scope, Negative) == Num(Pairs(left, right), scope, NegativeSpans)
  {
    var ms, ns := Flatten(left), Pairs(left, right);
    PairsAlign(left, right);
    hide Flatten, Pairs, PageMatches, Num, Holds, PairFlags;
    forall k | 0 <= k < |ms|
      ensures ms[k].kind == ns[k].kind
      ensures Found in ms[k].flags <==> BaselineFound in ns[k].flags
      ensures Inserted in ms[k].flags <==> BaselineInserted in ns[k].flags
      ensures Positive in ms[k].flags <==> PositiveSpans in ns[k].flags
      ensures Negative in ms[k].flags <==> NegativeSpans in ns[k].flags
    {
      var i, j := PairOrigin(left, right, k);
      BaselineFlags(left, right, i, j);
    }
    NumPointwise(ms, Found, ns, BaselineFound, scope);
    NumPointwise(ms, Inserted, ns, BaselineInserted, scope);
    NumPointwise(ms, Positive, ns, PositiveSpans, scope);
    NumPointwise(ms, Negative, ns, NegativeSpans, scope);
  }

  lemma BaselineSplits(left: seq<Page>, right: seq<Page>, scope: Scope)
    ensures var ms := Pairs(left, right);
            && Num(ms, scope, BaselineFound)
               == Num(ms, scope, BothPresent) + Num(ms, scope, Lost) + Num(ms, scope, BaselineFoundUnpaired)
            && Num(ms, scope, BaselineInserted)
               == Num(ms, scope, InsertedBoth) + Num(ms, scope, RemovedInsertion)
                  + Num(ms, scope, BaselineInsertedUnpaired)
  {
    var ms := Pairs(left, right);
    forall k | 0 <= k < |ms| ensures Labelled(ms[k]) {
      var i, j := PairOrigin(left, right, k);
      FlagsLabelled(left[i], left[i].spans[j], right);
    }
    hide Pairs, Num;
    NumSplit(ms, scope, BaselineFound, BaselineFoundPaired, BaselineFoundUnpaired);
    NumSplit(ms, scope, BaselineFoundPaired, BothPresent, Lost);
    NumSplit(ms, scope, BaselineInserted, BaselineInsertedPaired, BaselineInsertedUnpaired);
    NumSplit(ms, scope, BaselineInsertedPaired, InsertedBoth, RemovedInsertion);
  }

  predicate Labelled(m: PairMark) {
    && (BaselineFound in m.flags <==> BaselineFoundPaired in m.flags || BaselineFoundUnpaired in m.flags)
    && !(BaselineFoundPaired in m.flags && BaselineFoundUnpaired in m.flags)
    && (BaselineFoundPaired in m.flags <==> BothPresent in m.flags || Lost in m.flags)
    && !(BothPresent in m.flags && Lost in m.flags)
    && (BaselineInserted in m.flags <==> BaselineInsertedPaired in m.flags || BaselineInsertedUnpaired in m.flags)
    && !(BaselineInsertedPaired in m.flags && BaselineInsertedUnpaired in m.flags)
    && (BaselineInsertedPaired in m.flags <==> InsertedBoth in m.flags || RemovedInsertion in m.flags)
    && !(InsertedBoth in m.flags && RemovedInsertion in m.flags)
  }

  lemma FlagsLabelled(p: Page, span: Span, right: seq<Page>)
    ensures Labelled(PairMarkOf(p, span, right))
  {
    hide LabelOf, FindPage, FindSpan;
  }

  ghost predicate AllComplete(pages: seq<Page>) {
    forall i :: 0 <= i < |pages| ==> pages[i].complete
  }

  lemma NothingUnpaired(left: seq<Page>, right: seq<Page>, scope: Scope)
    requires AllComplete(right)
    ensures Num(Pairs(left, right), scope, BaselineFoundUnpaired) == 0
    ensures Num(Pairs(left, right), scope, BaselineInsertedUnpaired) == 0
  {
    var ms := Pairs(left, right);
    hide Pairs, PairMarkOf, Num, Flatten, MarkOf;
    forall k | 0 <= k < |ms|
      ensures BaselineFoundUnpaired !in ms[k].flags && BaselineInsertedUnpaired !in ms[k].flags
    {
      var i, j := PairOrigin(left, right, k);
      MeasuredIsPaired(left[i], left[i].spans[j], right);
    }
    NumZero(ms, scope, BaselineFoundUnpaired);
    NumZero(ms, scope, BaselineInsertedUnpaired);
  }

  lemma MeasuredIsPaired(p: Page, span: Span, right: seq<Page>)
    requires AllComplete(right)
    ensures var m := PairMarkOf(p, span, right);
            BaselineFoundUnpaired !in m.flags && BaselineInsertedUnpaired !in m.flags
  {
    FoundPage(right, p.caseRef, p.locator);
    hide FindPage, FindSpan, Contains;
  }

  /** The comparison and the two studies' own metrics count the same spans: what a
      study found is both present plus the span on one side only, plus the spans
      whose other side is unmeasured; when all pages are complete nothing is
      unmeasured. The studies may list pages and spans in different orders. */
  lemma StudiesAgree(left: seq<Page>, right: seq<Page>, expected: Expected, scope: Scope,
                     b: Bucket, c: Bucket, pairs: map<PairFlag, nat>)
    requires Comparable(left, right, expected)
    requires Counts(b, COUNTERS, Flatten(left), scope) && Counts(c, COUNTERS, Flatten(right), scope)
    requires Counts(pairs, PAIR_COUNTERS, Pairs(left, right), scope)
    ensures b[Found] == pairs[BothPresent] + pairs[Lost] + Num(Pairs(left, right), scope, BaselineFoundUnpaired)
    ensures c[Found] == pairs[BothPresent] + pairs[Recovered] + Num(Pairs(left, right), scope, CandidateFoundUnpaired)
    ensures b[Inserted] == pairs[InsertedBoth] + pairs[RemovedInsertion]
                           + Num(Pairs(left, right), scope, BaselineInsertedUnpaired)
    ensures c[Inserted] == pairs[InsertedBoth] + pairs[NewInsertion]
                           + Num(Pairs(left, right), scope, CandidateInsertedUnpaired)
    ensures b[Positive] == c[Positive] == pairs[PositiveSpans]
    ensures b[Negative] == c[Negative] == pairs[NegativeSpans]
    ensures AllComplete(right) ==> b[Found] == pairs[BothPresent] + pairs[Lost]
                                   && b[Inserted] == pairs[InsertedBoth] + pairs[RemovedInsertion]
    ensures AllComplete(left) ==> c[Found] == pairs[BothPresent] + pairs[Recovered]
                                  && c[Inserted] == pairs[InsertedBoth] + pairs[NewInsertion]
  {
    hide *;
    ComparableBack(left, right, expected);
    MirrorAgrees(left, right, scope);
    BaselineSplits(left, right, scope);
    BaselineSplits(right, left, scope);
    BaselineNums(left, right, scope);
    BaselineNums(right, left, scope);
    if AllComplete(right) {
      NothingUnpaired(left, right, scope);
    }
    if AllComplete(left) {
      NothingUnpaired(right, left, scope);
    }
    BucketAt(b, Flatten(left), scope);
    BucketAt(c, Flatten(right), scope);
    PairsAt(pairs, Pairs(left, right), scope);
  }

  lemma BucketAt(b: Bucket, ms: seq<StudyMark>, scope: Scope)
    requires Counts(b, COUNTERS, ms, scope)
    ensures b[Found] == Num(ms, scope, Found) && b[Inserted] == Num(ms, scope, Inserted)
    ensures b[Positive] == Num(ms, scope, Positive) && b[Negative] == Num(ms, scope, Negative)
  {
  }

  lemma PairsAt(b: map<PairFlag, nat>, ms: seq<PairMark>, scope: Scope)
    requires Counts(b, PAIR_COUNTERS, ms, scope)
    ensures b[BothPresent] == Num(ms, scope, BothPresent) && b[InsertedBoth] == Num(ms, scope, InsertedBoth)
    ensures b[Recovered] == Num(ms, scope, Recovered) && b[Lost] == Num(ms, scope, Lost)
    ensures b[NewInsertion] == Num(ms, scope, NewInsertion) && b[RemovedInsertion] == Num(ms, scope, RemovedInsertion)
    ensures b[PositiveSpans] == Num(ms, scope, PositiveSpans) && b[NegativeSpans] == Num(ms, scope, NegativeSpans)
  {
  }

  lemma MirrorAgrees(left: seq<Page>, right: seq<Page>, scope: Scope)
    requires DistinctRefs(left) && DistinctRefs(right)
    requires forall i :: 0 <= i < |left| ==> PageMatches(left[i], right)
    requires forall i :: 0 <= i < |right| ==> PageMatches(right[i], left)
    ensures var ms, ns := Pairs(left, right), Pairs(right, left);
            && Num(ms, scope, BothPresent) == Num(ns, scope, BothPresent)
            && Num(ms, scope, Recovered) == Num(ns, scope, Lost)
            && Num(ms, scope, InsertedBoth) == Num(ns, scope, InsertedBoth)
            && Num(ms, scope, NewInsertion) == Num(ns, scope, RemovedInsertion)
            && Num(ms, scope, PositiveSpans) == Num(ns, scope, PositiveSpans)
            && Num(ms, scope, NegativeSpans) == Num(ns, scope, NegativeSpans)
            && Num(ms, scope, CandidateFoundUnpaired) == Num(ns, scope, BaselineFoundUnpaired)
            && Num(ms, scope, CandidateInsertedUnpaired) == Num(ns, scope, BaselineInsertedUnpaired)
  {
    hide PageMatches, DistinctRefs, Pairs, Num;
    PairsSwap(left, right, BothPresent, scope);
    PairsSwap(left, right, Recovered, scope);
    PairsSwap(left, right, InsertedBoth, scope);
    PairsSwap(left, right, NewInsertion, scope);
    PairsSwap(left, right, PositiveSpans, scope);
    PairsSwap(left, right, NegativeSpans, scope);
    PairsSwap(left, right, CandidateFoundUnpaired, scope);
    PairsSwap(left, right, CandidateInsertedUnpaired, scope);
  }

  // ------------------------------------------------------------------
  // The comparison itself
  // ------------------------------------------------------------------

  datatype PairReport = PairReport(
    pagesMatched: nat, overall: map<PairFlag, nat>, byKind: map<string, map<PairFlag, nat>>,
    baseline: Report, candidate: Report, risk: RiskReport)

  ghost predicate PairsCounted(
    overall: map<PairFlag, nat>, byKind: map<string, map<PairFlag, nat>>, ms: seq<PairMark>)
  {
    CountedAs(overall, byKind, PAIR_COUNTERS, KINDS, ms)
  }

  ghost function PairsUpto(left: seq<Page>, right: seq<Page>, i: nat, j: nat): seq<PairMark>
    requires i < |left| && j <= |left[i].spans|
  {
    Pairs(left[..i], right) + PagePairs(left[i], right)[..j]
  }

  lemma PairsUptoStep(left: seq<Page>, right: seq<Page>, i: nat, j: nat)
    requires i < |left| && j <= |left[i].spans|
    ensures PairsUpto(left, right, i, 0) == Pairs(left[..i], right)
    ensures j < |left[i].spans| ==>
              PairsUpto(left, right, i, j + 1)
              == PairsUpto(left, right, i, j) + [PairMarkOf(left[i], left[i].spans[j], right)]
    ensures j == |left[i].spans| ==> PairsUpto(left, right, i, j) == Pairs(left[..i + 1], right)
  {
    hide PairMarkOf;
    var ms := PagePairs(left[i], right);
    if j < |left[i].spans| {
      assert ms[..j + 1] == ms[..j] + [ms[j]];
    } else {
      assert ms[..j] == ms;
      assert left[..i + 1][..i] == left[..i];
    }
    assert ms[..0] == [];
  }

  lemma PairStep(overall: map<PairFlag, nat>, byKind: map<string, map<PairFlag, nat>>, ms: seq<PairMark>,
                 p: Page, span: Span, right: seq<Page>, q: Page, t: Span)
    requires PairsCounted(overall, byKind, ms) && span.kind in KINDS
    requires FindPage(right, p.caseRef, p.locator) == Some(q) && FindSpan(q.spans, span.ref) == Some(t)
    ensures span.kind in byKind
    ensures var inc := PairIncrements(span.expected, LabelOf(p, span), LabelOf(q, t));
            PairsCounted(Bump(overall, inc), byKind[span.kind := Bump(byKind[span.kind], inc)],
                         ms + [PairMarkOf(p, span, right)])
  {
    var inc := PairIncrements(span.expected, LabelOf(p, span), LabelOf(q, t));
    var m := PairMarkOf(p, span, right);
    KindKnown(overall, byKind, PAIR_COUNTERS, KINDS, ms, span.kind);
    hide LabelOf, FindPage, FindSpan;
    PairIncrementsAreExact(span.expected, LabelOf(p, span), LabelOf(q, t));
    assert forall f :: f in PAIR_COUNTERS ==> (f in inc <==> f in m.flags);
    hide PairsCounted, PairIncrements, PairMarkOf;
    PairsCountedStep(overall, byKind, ms, m, inc);
  }

  lemma PairsCountedStep(overall: map<PairFlag, nat>, byKind: map<string, map<PairFlag, nat>>, ms: seq<PairMark>,
                         m: PairMark, inc: seq<PairFlag>)
    requires PairsCounted(overall, byKind, ms) && m.kind in byKind
    requires Distinct(inc) && forall f :: f in PAIR_COUNTERS ==> (f in inc <==> f in m.flags)
    ensures PairsCounted(Bump(overall, inc), byKind[m.kind := Bump(byKind[m.kind], inc)], ms + [m])
  {
    CountedStep(overall, byKind, PAIR_COUNTERS, KINDS, ms, m, inc);
  }

  lemma SpansMatchStart(p: Page, q: Page)
    ensures SpansMatch(p, q, 0)
  {
  }

  lemma SpansMatchStep(p: Page, q: Page, j: nat)
    requires j < |p.spans| && SpansMatch(p, q, j) && SpansOk(p, |p.spans|) && SameRefs(p.spans, q.spans)
    ensures p.spans[j].kind in KINDS && FindSpan(q.spans, p.spans[j].ref).Some?
    ensures var t := FindSpan(q.spans, p.spans[j].ref).value;
            SpansMatch(p, q, j + 1)
            <==> p.spans[j].kind == t.kind && p.spans[j].literal == t.literal && p.spans[j].expected == t.expected
    ensures !SpansMatch(p, q, j + 1) ==> !SpansMatch(p, q, |p.spans|)
  {
    hide FindSpan, KINDS;
    assert SpanOk(p, p.spans[j]);
  }

  /** One matched pair of pages: every span field must agree. */
  method ComparePage(left: seq<Page>, right: seq<Page>, i: nat, q: Page,
                     overall0: map<PairFlag, nat>, byKind0: map<string, map<PairFlag, nat>>)
    returns (ok: bool, overall: map<PairFlag, nat>, byKind: map<string, map<PairFlag, nat>>)
    requires i < |left| && FindPage(right, left[i].caseRef, left[i].locator) == Some(q)
    requires SpansOk(left[i], |left[i].spans|) && SameRefs(left[i].spans, q.spans)
    requires PairsCounted(overall0, byKind0, Pairs(left[..i], right))
    ensures ok <==> SpansMatch(left[i], q, |left[i].spans|)
    ensures ok ==> PairsCounted(overall, byKind, Pairs(left[..i + 1], right))
  {
    hide *;
    overall, byKind := overall0, byKind0;
    var p := left[i];
    PairsUptoStep(left, right, i, 0);
    SpansMatchStart(p, q);
    var j := 0;
    while j < |p.spans|
      invariant 0 <= j <= |p.spans|
      invariant PairsCounted(overall, byKind, PairsUpto(left, right, i, j))
      invariant SpansMatch(p, q, j)
    {
      var critical := p.spans[j];
      SpansMatchStep(p, q, j);
      var tested := FindSpan(q.spans, critical.ref).value;
      if critical.kind != tested.kind || critical.literal != tested.literal || critical.expected != tested.expected {
        return false, overall, byKind;
      }
      PairStep(overall, byKind, PairsUpto(left, right, i, j), p, critical, right, q, tested);
      PairsUptoStep(left, right, i, j);
      var incremented := PairIncrements(critical.expected, LabelOf(p, critical), LabelOf(q, tested));
      overall := Bump(overall, incremented);
      byKind := byKind[critical.kind := Bump(byKind[critical.kind], incremented)];
      j := j + 1;
    }
    PairsUptoStep(left, right, i, j);
    return true, overall, byKind;
  }

  function KindsOf(spans: seq<Span>): set<string> {
    set j | 0 <= j < |spans| :: spans[j].kind
  }

  ghost predicate CoveredSoFar(covered: map<string, set<string>>, left: seq<Page>, n: nat, expected: Expected)
    requires n <= |left|
  {
    && (forall c :: c in covered <==> c in expected)
    && (forall c, k :: c in covered ==> (k in covered[c] <==> Represented(left, n, c, k)))
  }

  lemma CoverStep(covered: map<string, set<string>>, left: seq<Page>, n: nat, expected: Expected)
    requires n < |left| && CoveredSoFar(covered, left, n, expected) && left[n].caseRef in covered
    ensures var c := left[n].caseRef;
            CoveredSoFar(covered[c := covered[c] + KindsOf(left[n].spans)], left, n + 1, expected)
  {
    var c0 := left[n].caseRef;
    var next := covered[c0 := covered[c0] + KindsOf(left[n].spans)];
    forall c, k | c in next ensures k in next[c] <==> Represented(left, n + 1, c, k) {
      if Represented(left, n, c, k) {
        var i, j :| 0 <= i < n && 0 <= j < |left[i].spans| && left[i].caseRef == c && left[i].spans[j].kind == k;
        assert Represented(left, n + 1, c, k);
      }
      if c == c0 && k in KindsOf(left[n].spans) {
        var j :| 0 <= j < |left[n].spans| && left[n].spans[j].kind == k;
        assert Represented(left, n + 1, c, k);
      }
    }
  }

  lemma MatchedStep(left: seq<Page>, right: seq<Page>, expected: Expected, i: nat)
    requires i < |left| && Matched(left, right, expected, i)
    ensures Matched(left, right, expected, i + 1)
            <==> left[i].caseRef in expected && PageMatches(left[i], right)
    ensures !Matched(left, right, expected, i + 1) ==> !Matched(left, right, expected, |left|)
  {
    hide PageMatches;
  }

  lemma PageCases(p: Page, right: seq<Page>, q: Page)
    requires FindPage(right, p.caseRef, p.locator) == Some(q)
    ensures PageMatches(p, right) <==> SameSource(p, q) && SpansMatch(p, q, |p.spans|)
    ensures SameSource(p, q) ==> SameRefs(p.spans, q.spans)
  {
  }

  lemma CoverageKnown(covered: map<string, set<string>>, left: seq<Page>, expected: Expected)
    requires CoveredSoFar(covered, left, |left|, expected)
    ensures (forall c :: c in expected ==> c in covered && expected[c] <= covered[c]) <==> Covered(left, expected)
  {
    hide Represented;
    if Covered(left, expected) {
      forall c, k | c in expected && k in expected[c] ensures k in covered[c] {
        assert Represented(left, |left|, c, k);
      }
    }
  }

  lemma CoverStart(covered: map<string, set<string>>, left: seq<Page>, expected: Expected)
    requires (forall c :: c in covered <==> c in expected) && forall c :: c in covered ==> covered[c] == {}
    ensures CoveredSoFar(covered, left, 0, expected)
  {
  }

  lemma CoveredKeys(covered: map<string, set<string>>, left: seq<Page>, n: nat, expected: Expected)
    requires n <= |left| && CoveredSoFar(covered, left, n, expected)
    ensures covered.Keys == expected.Keys
  {
  }

  lemma PairsStart(left: seq<Page>, right: seq<Page>, byKind: map<string, map<PairFlag, nat>>)
    requires (forall k :: k in byKind <==> k in KINDS) && forall k :: k in byKind ==> byKind[k] == BLANK_PAIRS
    ensures PairsCounted(BLANK_PAIRS, byKind, Pairs(left[..0], right))
  {
    assert left[..0] == [] && Pairs([], right) == [];
    CountedNothing<SpanKey, PairFlag>(BLANK_PAIRS, byKind, PAIR_COUNTERS, KINDS);
  }

  lemma MatchedStart(left: seq<Page>, right: seq<Page>, expected: Expected)
    requires SamePages(left, right)
    ensures Matched(left, right, expected, 0)
    ensures forall i :: 0 <= i < |left| ==> FindPage(right, left[i].caseRef, left[i].locator).Some?
  {
  }

  method ComparePages(left: seq<Page>, right: seq<Page>, expected: Expected)
    returns (ok: bool, overall: map<PairFlag, nat>, byKind: map<string, map<PairFlag, nat>>)
    requires SamePages(left, right) && forall i :: 0 <= i < |left| ==> SpansOk(left[i], |left[i].spans|)
    ensures ok <==> Matched(left, right, expected, |left|) && Covered(left, expected)
    ensures ok ==> PairsCounted(overall, byKind, Pairs(left, right))
  {
    hide *;
    overall := BLANK_PAIRS;
    byKind := map k | k in KINDS :: BLANK_PAIRS;
    var covered: map<string, set<string>> := map c | c in expected :: {};
    PairsStart(left, right, byKind);
    CoverStart(covered, left, expected);
    MatchedStart(left, right, expected);
    var i := 0;
    while i < |left|
      invariant 0 <= i <= |left|
      invariant PairsCounted(overall, byKind, Pairs(left[..i], right))
      invariant Matched(left, right, expected, i)
      invariant CoveredSoFar(covered, left, i, expected)
    {
      var source := left[i];
      var alternative := FindPage(right, source.caseRef, source.locator).value;
      MatchedStep(left, right, expected, i);
      PageCases(source, right, alternative);
      CoveredKeys(covered, left, i, expected);
      var agrees := CheckSource(source, alternative);
      if !agrees || source.caseRef !in covered {
        return false, overall, byKind;
      }
      CoverStep(covered, left, i, expected);
      covered := covered[source.caseRef := covered[source.caseRef] + KindsOf(source.spans)];
      var same;
      same, overall, byKind := ComparePage(left, right, i, alternative, overall, byKind);
      if !same {
        return false, overall, byKind;
      }
      i := i + 1;
    }
    assert left[..i] == left;
    CoverageKnown(covered, left, expected);
    CoveredKeys(covered, left, i, expected);
    ok := forall c :: c in expected ==> expected[c] <= covered[c];
  }

  // ------------------------------------------------------------------
  // The table of risks
  // ------------------------------------------------------------------

  /** Every kind but the last one is critical. */
  const CRITICAL: seq<string> := KINDS[..5]

  /** The counters that the table of risks repeats for the critical kinds. */
  const RISKS: seq<PairFlag> :=
    [Lost, NewInsertion, BothMissing, InsertedBoth, PositiveUnmeasured, NegativeUnmeasured]

  datatype RiskReport = RiskReport(
    byKind: map<string, map<PairFlag, nat>>, totals: map<PairFlag, nat>,
    lossOrInsertion: bool, unmeasured: bool, persistent: bool)

  predicate Tabled(byKind: map<string, map<PairFlag, nat>>) {
    forall k :: k in KINDS ==> k in byKind && forall f :: f in RISKS ==> f in byKind[k]
  }

  function RiskTotal(byKind: map<string, map<PairFlag, nat>>, f: PairFlag): nat
    requires Tabled(byKind) && f in RISKS
  {
    assert forall n :: 0 <= n < 5 ==> KINDS[n] in KINDS;
    byKind[KINDS[0]][f] + byKind[KINDS[1]][f] + byKind[KINDS[2]][f] + byKind[KINDS[3]][f] + byKind[KINDS[4]][f]
  }

  function RiskOf(byKind: map<string, map<PairFlag, nat>>): RiskReport
    requires Tabled(byKind)
  {
    var totals := map f | f in RISKS :: RiskTotal(byKind, f);
    RiskReport(
      map k | k in CRITICAL :: map f | f in RISKS :: byKind[k][f],
      totals,
      totals[Lost] != 0 || totals[NewInsertion] != 0,
      totals[PositiveUnmeasured] != 0 || totals[NegativeUnmeasured] != 0,
      totals[BothMissing] != 0 || totals[InsertedBoth] != 0)
  }

  /** Some pair of a critical kind carries the flag. */
  ghost predicate Observed(ms: seq<PairMark>, f: PairFlag) {
    exists k :: 0 <= k < |ms| && ms[k].kind in CRITICAL && f in ms[k].flags
  }

  ghost predicate TotalsMean(r: RiskReport, ms: seq<PairMark>) {
    && (forall f :: f in r.totals <==> f in RISKS)
    && (forall f :: f in r.totals ==> r.totals[f] + Num(ms, Some(KINDS[5]), f) == Num(ms, None, f))
  }

  ghost predicate KindsMean(r: RiskReport, ms: seq<PairMark>) {
    && (forall k :: k in r.byKind <==> k in CRITICAL)
    && (forall k, f :: k in r.byKind && f in RISKS ==> f in r.byKind[k] && r.byKind[k][f] == Num(ms, Some(k), f))
  }

  ghost predicate AlarmsMean(r: RiskReport, ms: seq<PairMark>) {
    && (r.lossOrInsertion <==> Observed(ms, Lost) || Observed(ms, NewInsertion))
    && (r.unmeasured <==> Observed(ms, PositiveUnmeasured) || Observed(ms, NegativeUnmeasured))
    && (r.persistent <==> Observed(ms, BothMissing) || Observed(ms, InsertedBoth))
  }

  /** The totals are all pairs but those of the last kind, and each of the three
      alarms rings exactly when a critical pair gives reason. */
  ghost predicate RiskMeans(r: RiskReport, ms: seq<PairMark>) {
    TotalsMean(r, ms) && KindsMean(r, ms) && AlarmsMean(r, ms)
  }

  lemma CountedIsTabled(overall: map<PairFlag, nat>, byKind: map<string, map<PairFlag, nat>>, ms: seq<PairMark>)
    requires PairsCounted(overall, byKind, ms)
    ensures Tabled(byKind)
    ensures forall k, f :: k in KINDS && f in RISKS ==> byKind[k][f] == Num(ms, Some(k), f)
  {
    assert forall f :: f in RISKS ==> f in PAIR_COUNTERS;
    hide KINDS, RISKS, Num;
  }

  lemma PairKinds(left: seq<Page>, right: seq<Page>)
    requires Accepted(left)
    ensures forall k :: 0 <= k < |Pairs(left, right)| ==> Pairs(left, right)[k].kind in KINDS
  {
    hide KINDS, Pairs, Flatten;
    forall k | 0 <= k < |Pairs(left, right)| ensures Pairs(left, right)[k].kind in KINDS {
      var i, j := PairOrigin(left, right, k);
      assert PageOk(left[i]);
      assert SpanOk(left[i], left[i].spans[j]);
    }
  }

  function CriticalNum(ms: seq<PairMark>, f: PairFlag): nat {
    Num(ms, Some(KINDS[0]), f) + Num(ms, Some(KINDS[1]), f) + Num(ms, Some(KINDS[2]), f)
    + Num(ms, Some(KINDS[3]), f) + Num(ms, Some(KINDS[4]), f)
  }

  lemma TotalZero(ms: seq<PairMark>, f: PairFlag)
    ensures CriticalNum(ms, f) != 0 <==> Observed(ms, f)
  {
    NumZero(ms, Some(KINDS[0]), f);
    NumZero(ms, Some(KINDS[1]), f);
    NumZero(ms, Some(KINDS[2]), f);
    NumZero(ms, Some(KINDS[3]), f);
    NumZero(ms, Some(KINDS[4]), f);
    CriticalIs();
    hide Num, KINDS, CRITICAL;
  }

  lemma CriticalIs()
    ensures forall k ::
              k in CRITICAL <==> k == KINDS[0] || k == KINDS[1] || k == KINDS[2] || k == KINDS[3] || k == KINDS[4]
    ensures forall k :: k in CRITICAL ==> k in KINDS
  {
  }

  lemma RiskIsExact(overall: map<PairFlag, nat>, byKind: map<string, map<PairFlag, nat>>, ms: seq<PairMark>)
    requires PairsCounted(overall, byKind, ms) && forall k :: 0 <= k < |ms| ==> ms[k].kind in KINDS
    ensures Tabled(byKind) && RiskMeans(RiskOf(byKind), ms)
  {
    CountedIsTabled(overall, byKind, ms);
    CriticalIs();
    hide *;
    forall f | f in RISKS
      ensures RiskTotal(byKind, f) + Num(ms, Some(KINDS[5]), f) == Num(ms, None, f)
      ensures RiskTotal(byKind, f) != 0 <==> Observed(ms, f)
    {
      TotalIs(byKind, ms, f);
    }
    TotalsFollow(byKind, ms);
    KindsFollow(byKind, ms);
    AlarmsFollow(byKind, ms);
    RiskParts(RiskOf(byKind), ms);
  }

  lemma RiskParts(r: RiskReport, ms: seq<PairMark>)
    requires TotalsMean(r, ms) && KindsMean(r, ms) && AlarmsMean(r, ms)
    ensures RiskMeans(r, ms)
  {
    hide TotalsMean, KindsMean, AlarmsMean;
  }

  lemma TotalsFollow(byKind: map<string, map<PairFlag, nat>>, ms: seq<PairMark>)
    requires Tabled(byKind)
    requires forall f :: f in RISKS ==> RiskTotal(byKind, f) + Num(ms, Some(KINDS[5]), f) == Num(ms, None, f)
    ensures TotalsMean(RiskOf(byKind), ms)
  {
    assert forall f :: f in RiskOf(byKind).totals ==> RiskOf(byKind).totals[f] == RiskTotal(byKind, f);
    hide RiskTotal, Num, KINDS, CRITICAL;
  }

  lemma KindsFollow(byKind: map<string, map<PairFlag, nat>>, ms: seq<PairMark>)
    requires Tabled(byKind)
    requires forall k, f :: k in KINDS && f in RISKS ==> byKind[k][f] == Num(ms, Some(k), f)
    ensures KindsMean(RiskOf(byKind), ms)
  {
    CriticalIs();
    hide RiskTotal, Num, KINDS, CRITICAL, RISKS, Tabled;
  }

  lemma AlarmsFollow(byKind: map<string, map<PairFlag, nat>>, ms: seq<PairMark>)
    requires Tabled(byKind)
    requires forall f :: f in RISKS ==> (RiskTotal(byKind, f) != 0 <==> Observed(ms, f))
    ensures AlarmsMean(RiskOf(byKind), ms)
  {
    hide RiskTotal, Observed, KINDS, CRITICAL, Tabled;
  }

  lemma TotalIs(byKind: map<string, map<PairFlag, nat>>, ms: seq<PairMark>, f: PairFlag)
    requires Tabled(byKind) && f in RISKS && forall k :: 0 <= k < |ms| ==> ms[k].kind in KINDS
    requires forall k :: k in KINDS ==> byKind[k][f] == Num(ms, Some(k), f)
    ensures RiskTotal(byKind, f) + Num(ms, Some(KINDS[5]), f) == Num(ms, None, f)
    ensures RiskTotal(byKind, f) != 0 <==> Observed(ms, f)
  {
    KindsAddUp(ms, f);
    TotalZero(ms, f);
    assert forall n :: 0 <= n < 6 ==> KINDS[n] in KINDS;
    hide Num, Observed, KINDS, RISKS;
  }

  /** The whole comparison. The cohort and source-byte checks are outside this
      model: `admitted` says that all of them passed. */
  method ComparePaired(left: seq<Page>, right: seq<Page>, expected: Expected, admitted: bool)
    returns (r: Result<PairReport>)
    ensures r.Ok? <==> admitted && Comparable(left, right, expected)
    ensures r.Ok? ==> && r.value.pagesMatched == |left|
                      && PairsCounted(r.value.overall, r.value.byKind, Pairs(left, right))
                      && StudyCounted(r.value.baseline.overall, r.value.baseline.byKind, Flatten(left))
                      && StudyCounted(r.value.candidate.overall, r.value.candidate.byKind, Flatten(right))
                      && RiskMeans(r.value.risk, Pairs(left, right))
  {
    if !admitted {
      return Refused;
    }
    var baseline := EvaluateLocalStudy(left);
    if baseline.Refused? {
      return Refused;
    }
    var candidate := EvaluateLocalStudy(right);
    KeysDecide(left, right);
    if candidate.Refused? || PageKeys(left) != PageKeys(right) {
      return Refused;
    }
    AcceptedSpans(left);
    hide PairsCounted, StudyCounted, Pairs, Flatten, Accepted, Matched, Covered, SamePages, SpansOk;
    var ok, overall, byKind := ComparePages(left, right, expected);
    if !ok {
      return Refused;
    }
    PairKinds(left, right);
    RiskIsExact(overall, byKind, Pairs(left, right));
    hide *;
    return Ok(PairReport(|left|, overall, byKind, baseline.value, candidate.value, RiskOf(byKind)));
  }

  lemma AcceptedSpans(pages: seq<Page>)
    requires Accepted(pages)
    ensures forall i :: 0 <= i < |pages| ==> SpansOk(pages[i], |pages[i].spans|)
  {
    hide SpansOk, HeaderOk;
    assert forall i :: 0 <= i < |pages| ==> PageOk(pages[i]);
  }
}

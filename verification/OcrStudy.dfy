/** Literal observations over a page-scoped OCR study: the acceptance tests, the
    nested counting loops and what every counter means. */
module OcrStudy {
  import opened Outcomes
  import opened Marks
  import opened Tally
  import PyText

  const KINDS: seq<string> :=
    ["negation", "uncertainty", "time", "causation", "technical_term", "other_critical_phrase"]
  const MAX_RECORDS := 2000
  const MAX_SPANS_PER_PAGE := 100
  const MAX_TEXT_CHARS := 200000

  datatype Span = Span(ref: string, kind: string, literal: string, expected: bool, searchHit: Option<bool>)

  datatype Page = Page(
    caseRef: string, locator: string, version: int, sourceSha: string, extractionSha: string,
    refText: string, ocrText: string, complete: bool, spans: seq<Span>)

  predicate Standing(text: string, literal: string, i: nat)
    requires i + |literal| <= |text|
  {
    text[i..i + |literal|] == literal
  }

  /** `literal in text`. */
  predicate Contains(text: string, literal: string) {
    exists i :: 0 <= i <= |text| - |literal| && Standing(text, literal, i)
  }

  /** A literal is in a text when the text is something, the literal, and something. */
  lemma ContainsIs(text: string, literal: string)
    ensures Contains(text, literal) <==> exists pre, post :: text == pre + literal + post
  {
    if Contains(text, literal) {
      var i :| 0 <= i <= |text| - |literal| && Standing(text, literal, i);
      assert text == text[..i] + literal + text[i + |literal|..];
    }
    if pre, post :| text == pre + literal + post {
      assert Standing(text, literal, |pre|);
    }
  }

  /** The six kinds, each once. */
  lemma KindsAre(kind: string)
    ensures kind in KINDS <==> || kind == "negation" || kind == "uncertainty" || kind == "time" || kind == "causation"
                               || kind == "technical_term" || kind == "other_critical_phrase"
    ensures |KINDS| == 6
  {
  }

  // ------------------------------------------------------------------
  // Acceptance
  // ------------------------------------------------------------------

  predicate TextOk(s: string, length: nat) {
    1 <= |s| <= length
  }

  ghost predicate SpanOk(page: Page, span: Span) {
    && TextOk(span.ref, 100) && TextOk(span.kind, 100) && span.kind in KINDS && TextOk(span.literal, 2000)
    && Contains(page.refText, span.literal) == span.expected
    && (span.expected || span.searchHit.None?)
    && (span.expected && page.complete && !Contains(page.ocrText, span.literal) ==> span.searchHit != Some(true))
  }

  ghost predicate HeaderOk(page: Page) {
    && TextOk(page.caseRef, 100) && TextOk(page.locator, 100) && page.version >= 1
    && PyText.IsHex(page.sourceSha, 64) && PyText.IsHex(page.extractionSha, 64)
    && |page.refText| <= 200000 && |page.ocrText| <= 200000
    && 1 <= |page.spans| <= 100
  }

  ghost predicate SpansOk(page: Page, n: nat)
    requires n <= |page.spans|
  {
    && (forall i :: 0 <= i < n ==> SpanOk(page, page.spans[i]))
    && (forall i, j :: 0 <= i < j < n ==> page.spans[i].ref != page.spans[j].ref)
    && (forall i, j :: 0 <= i < j < n ==> page.spans[i].literal != page.spans[j].literal)
  }

  ghost predicate PageOk(page: Page) {
    HeaderOk(page) && SpansOk(page, |page.spans|)
  }

  ghost predicate PagesOk(pages: seq<Page>, n: nat)
    requires n <= |pages|
  {
    && (forall i :: 0 <= i < n ==> PageOk(pages[i]))
    && (forall i, j :: 0 <= i < j < n ==> (pages[i].caseRef, pages[i].locator) != (pages[j].caseRef, pages[j].locator))
    && (forall i, j :: 0 <= i < j < n ==>
          (pages[i].sourceSha, pages[i].locator) != (pages[j].sourceSha, pages[j].locator))
  }

  ghost predicate Accepted(pages: seq<Page>) {
    1 <= |pages| <= 2000 && PagesOk(pages, |pages|)
  }

  // ------------------------------------------------------------------
  // The meaning of the counters
  // ------------------------------------------------------------------

  datatype Counter =
    | Positive | PositiveMeasured | PositiveUnknown | Found | Missing
    | Searched | Unsearched | SearchHit | SearchMiss
    | Negative | NegativeMeasured | NegativeUnknown | Inserted

  /** When a span counts towards a counter. */
  predicate Holds(c: Counter, page: Page, span: Span) {
    var seen := Contains(page.ocrText, span.literal);
    var found := span.expected && page.complete && seen;
    match c
    case Positive => span.expected
    case PositiveMeasured => span.expected && page.complete
    case PositiveUnknown => span.expected && !page.complete
    case Found => found
    case Missing => span.expected && page.complete && !seen
    case Searched => found && span.searchHit.Some?
    case Unsearched => found && span.searchHit.None?
    case SearchHit => found && span.searchHit.Some? && span.searchHit.value
    case SearchMiss => found && span.searchHit.Some? && !span.searchHit.value
    case Negative => !span.expected
    case NegativeMeasured => !span.expected && page.complete
    case NegativeUnknown => !span.expected && !page.complete
    case Inserted => !span.expected && page.complete && seen
  }

  datatype SpanKey = SpanKey(caseRef: string, locator: string, ref: string)

  type StudyMark = Mark<SpanKey, Counter>

  function MarkOf(page: Page, span: Span): StudyMark {
    Mark(SpanKey(page.caseRef, page.locator, span.ref), span.kind, set c: Counter | Holds(c, page, span))
  }

  function PageMarks(page: Page): (ms: seq<StudyMark>)
    ensures |ms| == |page.spans| && forall i :: 0 <= i < |ms| ==> ms[i] == MarkOf(page, page.spans[i])
  {
    seq(|page.spans|, i requires 0 <= i < |page.spans| => MarkOf(page, page.spans[i]))
  }

  /** All spans of a study, page by page. */
  function Flatten(pages: seq<Page>): seq<StudyMark> {
    if pages == [] then [] else Flatten(pages[..|pages| - 1]) + PageMarks(pages[|pages| - 1])
  }

  // ------------------------------------------------------------------
  // Buckets
  // ------------------------------------------------------------------

  type Bucket = map<Counter, nat>

  const COUNTERS: set<Counter> := set c: Counter | true

  const BLANK: Bucket := map c: Counter | c in COUNTERS :: 0

  /** A dictionary with every counter of the study, exact for one scope. */
  ghost predicate Exact(b: Bucket, ms: seq<StudyMark>, scope: Scope) {
    Counts(b, COUNTERS, ms, scope)
  }

  /** The counters one span increments in a bucket, in the order of the branches. */
  function Increments(page: Page, span: Span): seq<Counter> {
    if span.expected then
      if !page.complete then [Positive, PositiveUnknown]
      else if !Contains(page.ocrText, span.literal) then [Positive, PositiveMeasured, Missing]
      else
        match span.searchHit
        case None => [Positive, PositiveMeasured, Found, Unsearched]
        case Some(true) => [Positive, PositiveMeasured, Found, Searched, SearchHit]
        case Some(false) => [Positive, PositiveMeasured, Found, Searched, SearchMiss]
    else
      if !page.complete then [Negative, NegativeUnknown]
      else if Contains(page.ocrText, span.literal) then [Negative, NegativeMeasured, Inserted]
      else [Negative, NegativeMeasured]
  }

  /** The branches increment exactly the counters whose condition holds, each once. */
  lemma IncrementsAreExact(page: Page, span: Span)
    ensures Distinct(Increments(page, span))
    ensures forall c :: c in Increments(page, span) <==> c in MarkOf(page, span).flags
  {
    hide Contains;
    forall c ensures c in Increments(page, span) <==> c in MarkOf(page, span).flags {
      FlagIs(page, span, c);
    }
  }

  // ------------------------------------------------------------------
  // The counting loops
  // ------------------------------------------------------------------

  datatype Report = Report(pages: nat, overall: Bucket, byKind: map<string, Bucket>)

  ghost predicate StudyCounted(overall: Bucket, byKind: map<string, Bucket>, ms: seq<StudyMark>) {
    CountedAs(overall, byKind, COUNTERS, KINDS, ms)
  }

  lemma SpanStep(overall: Bucket, byKind: map<string, Bucket>, ms: seq<StudyMark>, page: Page, span: Span)
    requires StudyCounted(overall, byKind, ms) && SpanOk(page, span)
    ensures span.kind in byKind
    ensures var inc := Increments(page, span);
            StudyCounted(Bump(overall, inc), byKind[span.kind := Bump(byKind[span.kind], inc)],
                         ms + [MarkOf(page, span)])
  {
    KindKnown(overall, byKind, COUNTERS, KINDS, ms, span.kind);
    IncrementsAreExact(page, span);
    hide Increments;
    CountedStep(overall, byKind, COUNTERS, KINDS, ms, MarkOf(page, span), Increments(page, span));
  }

  /** The spans before span `j` of page `i`. */
  function Upto(pages: seq<Page>, i: nat, j: nat): seq<StudyMark>
    requires i < |pages| && j <= |pages[i].spans|
  {
    Flatten(pages[..i]) + PageMarks(pages[i])[..j]
  }

  lemma UptoStep(pages: seq<Page>, i: nat, j: nat)
    requires i < |pages| && j <= |pages[i].spans|
    ensures Upto(pages, i, 0) == Flatten(pages[..i])
    ensures j < |pages[i].spans| ==> Upto(pages, i, j + 1) == Upto(pages, i, j) + [MarkOf(pages[i], pages[i].spans[j])]
    ensures j == |pages[i].spans| ==> Upto(pages, i, j) == Flatten(pages[..i + 1])
  {
    var ms := PageMarks(pages[i]);
    if j < |pages[i].spans| {
      assert ms[..j + 1] == ms[..j] + [ms[j]];
    } else {
      assert ms[..j] == ms;
      assert pages[..i + 1][..i] == pages[..i];
    }
    assert ms[..0] == [];
  }

  /** The tests on one span that look at no other span. */
  method CheckSpan(page: Page, span: Span) returns (ok: bool)
    ensures ok <==> SpanOk(page, span)
  {
    hide Contains, KINDS;
    if span.ref == "" || |span.ref| > 100 || span.kind == "" || |span.kind| > 100 || span.kind !in KINDS {
      return false;
    }
    if span.literal == "" || |span.literal| > 2000 {
      return false;
    }
    if Contains(page.refText, span.literal) != span.expected || (!span.expected && span.searchHit.Some?) {
      return false;
    }
    if span.expected && page.complete && !Contains(page.ocrText, span.literal) {
      return span.searchHit != Some(true);
    }
    return true;
  }

  /** The tests on one page before its spans are read. */
  method CheckHeader(page: Page) returns (ok: bool)
    ensures ok <==> HeaderOk(page)
  {
    hide PyText.IsHex;
    if page.caseRef == "" || |page.caseRef| > 100 || page.locator == "" || |page.locator| > 100 || page.version < 1 {
      return false;
    }
    if !PyText.IsHex(page.sourceSha, 64) || !PyText.IsHex(page.extractionSha, 64) {
      return false;
    }
    if |page.refText| > MAX_TEXT_CHARS || |page.ocrText| > MAX_TEXT_CHARS {
      return false;
    }
    return page.spans != [] && |page.spans| <= MAX_SPANS_PER_PAGE;
  }

  method CountPage(pages: seq<Page>, i: nat, overall0: Bucket, byKind0: map<string, Bucket>)
    returns (ok: bool, overall: Bucket, byKind: map<string, Bucket>)
    requires i < |pages| && StudyCounted(overall0, byKind0, Flatten(pages[..i]))
    ensures ok <==> SpansOk(pages[i], |pages[i].spans|)
    ensures ok ==> StudyCounted(overall, byKind, Flatten(pages[..i + 1]))
  {
    hide StudyCounted, SpanOk, Increments, Flatten, Upto;
    overall, byKind := overall0, byKind0;
    var page := pages[i];
    var refs: set<string>, literals: set<string> := {}, {};
    UptoStep(pages, i, 0);
    var j := 0;
    while j < |page.spans|
      invariant 0 <= j <= |page.spans|
      invariant StudyCounted(overall, byKind, Upto(pages, i, j))
      invariant SpansOk(page, j)
      invariant refs == set k | 0 <= k < j :: page.spans[k].ref
      invariant literals == set k | 0 <= k < j :: page.spans[k].literal
    {
      var span := page.spans[j];
      var good := CheckSpan(page, span);
      if span.ref in refs || span.literal in literals || !good {
        return false, overall, byKind;
      }
      refs, literals := refs + {span.ref}, literals + {span.literal};
      SpanStep(overall, byKind, Upto(pages, i, j), page, span);
      UptoStep(pages, i, j);
      var incremented := Increments(page, span);
      overall := Bump(overall, incremented);
      byKind := byKind[span.kind := Bump(byKind[span.kind], incremented)];
      j := j + 1;
    }
    UptoStep(pages, i, j);
    return true, overall, byKind;
  }

  /** The two seen-sets hold the keys of the pages before `i`. */
  ghost predicate KeysSeen(pages: seq<Page>, i: nat, keys: set<(string, string)>, sourceKeys: set<(string, string)>)
    requires i <= |pages|
  {
    && (forall x :: x in keys <==> exists k :: 0 <= k < i && (pages[k].caseRef, pages[k].locator) == x)
    && (forall x :: x in sourceKeys <==> exists k :: 0 <= k < i && (pages[k].sourceSha, pages[k].locator) == x)
  }

  method EvaluateLocalStudy(pages: seq<Page>) returns (r: Result<Report>)
    ensures r.Ok? <==> Accepted(pages)
    ensures r.Ok? ==> r.value.pages == |pages| && StudyCounted(r.value.overall, r.value.byKind, Flatten(pages))
  {
    AcceptedCases(pages);
    hide *;
    if pages == [] || |pages| > MAX_RECORDS {
      return Refused;
    }
    var overall := BLANK;
    var byKind := map k | k in KINDS :: BLANK;
    StudyStart(pages, byKind);
    var seenPages: set<(string, string)>, seenSourcePages: set<(string, string)> := {}, {};
    var i := 0;
    while i < |pages|
      invariant 0 <= i <= |pages|
      invariant StudyCounted(overall, byKind, Flatten(pages[..i]))
      invariant PagesOk(pages, i) && KeysSeen(pages, i, seenPages, seenSourcePages)
    {
      var page := pages[i];
      var pageKey, sourceKey := (page.caseRef, page.locator), (page.sourceSha, page.locator);
      PagesStep(pages, i, seenPages, seenSourcePages);
      var good := CheckHeader(page);
      if !good || pageKey in seenPages || sourceKey in seenSourcePages {
        return Refused;
      }
      seenPages, seenSourcePages := seenPages + {pageKey}, seenSourcePages + {sourceKey};
      var ok;
      ok, overall, byKind := CountPage(pages, i, overall, byKind);
      if !ok {
        return Refused;
      }
      i := i + 1;
    }
    assert pages[..i] == pages;
    return Ok(Report(|pages|, overall, byKind));
  }

  lemma AcceptedCases(pages: seq<Page>)
    ensures Accepted(pages) <==> pages != [] && |pages| <= MAX_RECORDS && PagesOk(pages, |pages|)
  {
    hide PagesOk;
  }

  lemma StudyStart(pages: seq<Page>, byKind: map<string, Bucket>)
    requires byKind == map k | k in KINDS :: BLANK
    ensures StudyCounted(BLANK, byKind, Flatten(pages[..0]))
    ensures PagesOk(pages, 0) && KeysSeen(pages, 0, {}, {})
  {
    hide KINDS;
    CountedNothing<SpanKey, Counter>(BLANK, byKind, COUNTERS, KINDS);
    assert Flatten(pages[..0]) == [];
  }

  /** One more page is acceptable when it is well formed and new on both keys. */
  lemma PagesStep(pages: seq<Page>, i: nat, keys: set<(string, string)>, sourceKeys: set<(string, string)>)
    requires i < |pages| && PagesOk(pages, i) && KeysSeen(pages, i, keys, sourceKeys)
    ensures var p := pages[i];
            && KeysSeen(pages, i + 1, keys + {(p.caseRef, p.locator)}, sourceKeys + {(p.sourceSha, p.locator)})
            && (PagesOk(pages, i + 1)
                <==> && HeaderOk(p) && SpansOk(p, |p.spans|)
                     && (p.caseRef, p.locator) !in keys && (p.sourceSha, p.locator) !in sourceKeys)
    ensures !PagesOk(pages, i + 1) ==> !PagesOk(pages, |pages|)
  {
    hide HeaderOk, SpansOk;
  }

  // ------------------------------------------------------------------
  // Conservation
  // ------------------------------------------------------------------

  /** How the flags of one span relate. */
  predicate Coherent(m: StudyMark) {
    && (Positive in m.flags <==> PositiveMeasured in m.flags || PositiveUnknown in m.flags)
    && !(PositiveMeasured in m.flags && PositiveUnknown in m.flags)
    && (PositiveMeasured in m.flags <==> Found in m.flags || Missing in m.flags)
    && !(Found in m.flags && Missing in m.flags)
    && (Found in m.flags <==> Searched in m.flags || Unsearched in m.flags)
    && !(Searched in m.flags && Unsearched in m.flags)
    && (Searched in m.flags <==> SearchHit in m.flags || SearchMiss in m.flags)
    && !(SearchHit in m.flags && SearchMiss in m.flags)
    && (Negative in m.flags <==> NegativeMeasured in m.flags || NegativeUnknown in m.flags)
    && !(NegativeMeasured in m.flags && NegativeUnknown in m.flags)
    && (Inserted in m.flags ==> NegativeMeasured in m.flags)
  }

  lemma MarkIsCoherent(page: Page, span: Span)
    ensures Coherent(MarkOf(page, span))
  {
    FlagIs(page, span, Positive);
    FlagIs(page, span, PositiveMeasured);
    FlagIs(page, span, PositiveUnknown);
    FlagIs(page, span, Found);
    FlagIs(page, span, Missing);
    FlagIs(page, span, Searched);
    FlagIs(page, span, Unsearched);
    FlagIs(page, span, SearchHit);
    FlagIs(page, span, SearchMiss);
    FlagIs(page, span, Negative);
    FlagIs(page, span, NegativeMeasured);
    FlagIs(page, span, NegativeUnknown);
    FlagIs(page, span, Inserted);
    hide MarkOf, Contains;
  }

  lemma FlagIs(page: Page, span: Span, c: Counter)
    ensures c in MarkOf(page, span).flags <==> Holds(c, page, span)
  {
  }

  /** Where a mark of the flattened study comes from. */
  ghost predicate ComesFrom(m: StudyMark, pages: seq<Page>, i: nat, j: nat) {
    i < |pages| && j < |pages[i].spans| && m == MarkOf(pages[i], pages[i].spans[j])
  }

  lemma {:induction false} Origin(pages: seq<Page>, k: nat) returns (i: nat, j: nat)
    requires k < |Flatten(pages)|
    ensures ComesFrom(Flatten(pages)[k], pages, i, j)
    ensures k == |Flatten(pages[..i])| + j
  {
    var n := |pages| - 1;
    if k < |Flatten(pages[..n])| {
      i, j := Origin(pages[..n], k);
      assert pages[..n][..i] == pages[..i];
    } else {
      i, j := n, k - |Flatten(pages[..n])|;
    }
  }

  /** No two pages share case and locator, and no page repeats a span reference. */
  ghost predicate DistinctRefs(pages: seq<Page>) {
    && (forall i, j :: 0 <= i < j < |pages| ==>
          !(pages[i].caseRef == pages[j].caseRef && pages[i].locator == pages[j].locator))
    && (forall i :: 0 <= i < |pages| ==> DistinctSpanRefs(pages[i].spans))
  }

  ghost predicate DistinctSpanRefs(spans: seq<Span>) {
    forall i, j :: 0 <= i < j < |spans| ==> spans[i].ref != spans[j].ref
  }

  lemma AcceptedIsDistinct(pages: seq<Page>)
    requires Accepted(pages)
    ensures DistinctRefs(pages)
  {
    hide SpanOk, HeaderOk;
    forall i, j | 0 <= i < j < |pages|
      ensures !(pages[i].caseRef == pages[j].caseRef && pages[i].locator == pages[j].locator)
    {
      assert (pages[i].caseRef, pages[i].locator) != (pages[j].caseRef, pages[j].locator);
    }
    forall i | 0 <= i < |pages| ensures DistinctSpanRefs(pages[i].spans) {
      assert PageOk(pages[i]);
    }
  }

  lemma FlattenKeysDistinct(pages: seq<Page>)
    requires DistinctRefs(pages)
    ensures DistinctKeys(Flatten(pages))
  {
    var ms := Flatten(pages);
    forall k, l | 0 <= k < l < |ms| ensures ms[k].key != ms[l].key {
      var i, j := Origin(pages, k);
      var a, b := Origin(pages, l);
      hide Flatten, Holds;
      assert DistinctSpanRefs(pages[i].spans);
    }
  }

  /** Every bucket partitions exactly, for each kind and overall, in every study. */
  lemma BucketPartitions(pages: seq<Page>, b: Bucket, scope: Scope)
    requires Exact(b, Flatten(pages), scope)
    ensures b[Positive] == b[PositiveMeasured] + b[PositiveUnknown]
    ensures b[PositiveMeasured] == b[Found] + b[Missing]
    ensures b[Found] == b[Searched] + b[Unsearched]
    ensures b[Searched] == b[SearchHit] + b[SearchMiss]
    ensures b[Negative] == b[NegativeMeasured] + b[NegativeUnknown]
    ensures b[Inserted] <= b[NegativeMeasured]
  {
    var ms := Flatten(pages);
    forall k | 0 <= k < |ms| ensures Coherent(ms[k]) {
      var i, j := Origin(pages, k);
      MarkIsCoherent(pages[i], pages[i].spans[j]);
    }
    hide Flatten, Num;
    NumSplit(ms, scope, Positive, PositiveMeasured, PositiveUnknown);
    NumSplit(ms, scope, PositiveMeasured, Found, Missing);
    NumSplit(ms, scope, Found, Searched, Unsearched);
    NumSplit(ms, scope, Searched, SearchHit, SearchMiss);
    NumSplit(ms, scope, Negative, NegativeMeasured, NegativeUnknown);
    NumWithin(ms, scope, Inserted, NegativeMeasured);
  }

  function OverKinds<K, C(==)>(ms: seq<Mark<K, C>>, c: C): nat {
    Num(ms, Some(KINDS[0]), c) + Num(ms, Some(KINDS[1]), c) + Num(ms, Some(KINDS[2]), c)
    + Num(ms, Some(KINDS[3]), c) + Num(ms, Some(KINDS[4]), c) + Num(ms, Some(KINDS[5]), c)
  }

  lemma {:induction false} KindsAddUp<K, C>(ms: seq<Mark<K, C>>, c: C)
    requires forall i :: 0 <= i < |ms| ==> ms[i].kind in KINDS
    ensures Num(ms, None, c) == OverKinds(ms, c)
  {
    if ms == [] {
    } else {
      var n := |ms| - 1;
      assert ms[n].kind in KINDS;
      KindsAddUp(ms[..n], c);
      OneKind(ms[n].kind);
    }
  }

  lemma OneKind(kind: string)
    requires kind in KINDS
    ensures (if kind == KINDS[0] then 1 else 0) + (if kind == KINDS[1] then 1 else 0)
          + (if kind == KINDS[2] then 1 else 0) + (if kind == KINDS[3] then 1 else 0)
          + (if kind == KINDS[4] then 1 else 0) + (if kind == KINDS[5] then 1 else 0) == 1
  {
    assert KINDS[0][0] == 'n' && KINDS[1][0] == 'u' && KINDS[2][0] == 't' && KINDS[2][1] == 'i';
    assert KINDS[3][0] == 'c' && KINDS[4][0] == 't' && KINDS[4][1] == 'e' && KINDS[5][0] == 'o';
  }

  predicate HasKinds(byKind: map<string, Bucket>) {
    forall n :: 0 <= n < 6 ==> KINDS[n] in byKind && byKind[KINDS[n]].Keys == COUNTERS
  }

  lemma EveryCounter(b: Bucket, c: Counter)
    requires b.Keys == COUNTERS
    ensures c in b
  {
  }

  function InKind(byKind: map<string, Bucket>, n: nat, c: Counter): nat
    requires HasKinds(byKind) && n < 6
  {
    EveryCounter(byKind[KINDS[n]], c);
    byKind[KINDS[n]][c]
  }

  /** One counter over the six kinds. */
  function KindSum(byKind: map<string, Bucket>, c: Counter): nat
    requires HasKinds(byKind)
  {
    InKind(byKind, 0, c) + InKind(byKind, 1, c) + InKind(byKind, 2, c)
    + InKind(byKind, 3, c) + InKind(byKind, 4, c) + InKind(byKind, 5, c)
  }

  lemma KindBuckets(overall: Bucket, byKind: map<string, Bucket>, ms: seq<StudyMark>, c: Counter)
    requires StudyCounted(overall, byKind, ms)
    ensures HasKinds(byKind) && c in overall && overall[c] == Num(ms, None, c)
    ensures forall n :: 0 <= n < 6 ==> InKind(byKind, n, c) == Num(ms, Some(KINDS[n]), c)
  {
    EveryCounter(overall, c);
    forall n | 0 <= n < 6 ensures KINDS[n] in byKind {
      assert KINDS[n] in KINDS;
    }
    hide Num, KINDS;
  }

  /** For an accepted study the overall bucket is the sum of the kind buckets. */
  lemma OverallIsSumOfKinds(pages: seq<Page>, overall: Bucket, byKind: map<string, Bucket>, c: Counter)
    requires Accepted(pages) && StudyCounted(overall, byKind, Flatten(pages))
    ensures HasKinds(byKind) && c in overall && overall[c] == KindSum(byKind, c)
  {
    var ms := Flatten(pages);
    forall k | 0 <= k < |ms| ensures ms[k].kind in KINDS {
      var i, j := Origin(pages, k);
      assert PageOk(pages[i]);
      assert SpanOk(pages[i], pages[i].spans[j]);
    }
    KindsAddUp(ms, c);
    KindBuckets(overall, byKind, ms, c);
    hide StudyCounted, HasKinds, InKind, Accepted, Flatten, Num, KINDS, COUNTERS;
  }
}

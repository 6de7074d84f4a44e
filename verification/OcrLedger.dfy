/** The reviewer ledger over a study's positive spans, and the packet's
    completeness flag built from it. */
module OcrLedger {
  import opened Outcomes
  import opened Marks
  import opened OcrStudy
  import opened Tally
  import Paired = OcrPaired

  const PRESERVED := "meaning_preserved"
  const CHANGED := "material_meaning_changed"
  const UNREADABLE := "source_unreadable"
  const FINDINGS := {PRESERVED, CHANGED, UNREADABLE}
  const MAX_ROWS := 200000

  datatype Verdict = Verdict(ref: string, finding: string)

  datatype Row = Row(
    key: SpanKey, sourceSha: string, extractionSha: string,
    one: Verdict, two: Verdict, adjudication: Option<Verdict>)

  /** One entry of the ordered index of positive spans. */
  datatype Entry = Entry(key: SpanKey, kind: string, sourceSha: string, extractionSha: string)

  function EntryOf(page: Page, span: Span): Entry {
    Entry(SpanKey(page.caseRef, page.locator, span.ref), span.kind, page.sourceSha, page.extractionSha)
  }

  /** The positive spans among the first `n` of a page. */
  function PageIndex(page: Page, n: nat): seq<Entry>
    requires n <= |page.spans|
  {
    if n == 0 then []
    else PageIndex(page, n - 1) + if page.spans[n - 1].expected then [EntryOf(page, page.spans[n - 1])] else []
  }

  function Index(pages: seq<Page>): seq<Entry> {
    if pages == [] then []
    else Index(pages[..|pages| - 1]) + PageIndex(pages[|pages| - 1], |pages[|pages| - 1].spans|)
  }

  ghost predicate DistinctEntries(index: seq<Entry>) {
    forall i, j :: 0 <= i < j < |index| ==> index[i].key != index[j].key
  }

  predicate HasEntry(index: seq<Entry>, key: SpanKey) {
    exists i :: 0 <= i < |index| && index[i].key == key
  }

  function FindEntry(index: seq<Entry>, key: SpanKey): (e: Entry)
    requires HasEntry(index, key)
    ensures e in index && e.key == key
  {
    var n := |index| - 1;
    if index[n].key == key then index[n] else FindEntry(index[..n], key)
  }

  // ------------------------------------------------------------------
  // Acceptable rows
  // ------------------------------------------------------------------

  ghost predicate VerdictOk(v: Verdict) {
    && 1 <= |v.ref| <= 100
    && (v.finding == "meaning_preserved" || v.finding == "material_meaning_changed" || v.finding == "source_unreadable")
  }

  /** Neither reviewer reports anything but a preserved meaning. */
  ghost predicate BothPreserved(row: Row) {
    row.one.finding == "meaning_preserved" && row.two.finding == "meaning_preserved"
  }

  /** Disagreement, or anything but two preserved meanings, needs a specialist. */
  predicate NeedsAdjudication(row: Row) {
    row.one.finding != row.two.finding || row.one.finding != PRESERVED || row.two.finding != PRESERVED
  }

  /** What a row may say, whichever span it names. */
  ghost predicate RowSays(row: Row) {
    && 1 <= |row.key.caseRef| <= 100 && 1 <= |row.key.locator| <= 100 && 1 <= |row.key.ref| <= 100
    && VerdictOk(row.one) && VerdictOk(row.two) && row.one.ref != row.two.ref
    && (row.adjudication.Some? ==>
          && VerdictOk(row.adjudication.value) && !BothPreserved(row)
          && row.adjudication.value.ref != row.one.ref && row.adjudication.value.ref != row.two.ref)
  }

  /** The row is about this span, which the reference expects to be present. */
  ghost predicate Reviews(row: Row, page: Page, span: Span) {
    && span.expected && row.key == SpanKey(page.caseRef, page.locator, span.ref)
    && row.sourceSha == page.sourceSha && row.extractionSha == page.extractionSha
  }

  ghost predicate RowFits(row: Row, pages: seq<Page>) {
    && RowSays(row)
    && exists i, j :: 0 <= i < |pages| && 0 <= j < |pages[i].spans| && Reviews(row, pages[i], pages[i].spans[j])
  }

  /** The rows of an accepted study: each about a positive span, no span twice. */
  ghost predicate Reviewable(pages: seq<Page>, rows: seq<Row>) {
    && Accepted(pages) && |rows| <= 200000
    && (forall i :: 0 <= i < |rows| ==> RowFits(rows[i], pages))
    && (forall i, j :: 0 <= i < j < |rows| ==> rows[i].key != rows[j].key)
  }

  /** The same test against the index. */
  ghost predicate RowOk(row: Row, index: seq<Entry>) {
    && RowSays(row)
    && HasEntry(index, row.key)
    && row.sourceSha == FindEntry(index, row.key).sourceSha
    && row.extractionSha == FindEntry(index, row.key).extractionSha
  }

  ghost predicate RowsOk(rows: seq<Row>, index: seq<Entry>, n: nat)
    requires n <= |rows|
  {
    && (forall i :: 0 <= i < n ==> RowOk(rows[i], index))
    && (forall i, j :: 0 <= i < j < n ==> rows[i].key != rows[j].key)
  }

  // ------------------------------------------------------------------
  // Counters
  // ------------------------------------------------------------------

  /** The counters filled by the loops, then two flags that explain them. */
  datatype LedgerFlag =
    | ReferencePositive | RowSupplied | Agreed | Disagreed | AnyChanged | AnyUnreadable
    | Required | AdjudicationSupplied | AdjudicationMissing
    | AdjudgedPreserved | AdjudgedChanged | AdjudgedUnreadable
    | Reviewed | Unreviewed

  const LEDGER: set<LedgerFlag> :=
    {ReferencePositive, RowSupplied, Agreed, Disagreed, AnyChanged, AnyUnreadable,
     Required, AdjudicationSupplied, AdjudicationMissing, AdjudgedPreserved, AdjudgedChanged, AdjudgedUnreadable}

  type LedgerMark = Mark<SpanKey, LedgerFlag>
  type LedgerBucket = map<LedgerFlag, nat>

  const BLANK_LEDGER: LedgerBucket := map f | f in LEDGER :: 0

  /** When a row counts towards a counter. */
  ghost predicate RowHolds(f: LedgerFlag, row: Row) {
    var needed, ruling := !BothPreserved(row), row.adjudication;
    match f
    case RowSupplied => true
    case Agreed => row.one.finding == row.two.finding
    case Disagreed => row.one.finding != row.two.finding
    case AnyChanged => row.one.finding == "material_meaning_changed" || row.two.finding == "material_meaning_changed"
    case AnyUnreadable => row.one.finding == "source_unreadable" || row.two.finding == "source_unreadable"
    case Required => needed
    case AdjudicationMissing => needed && ruling.None?
    case AdjudicationSupplied => needed && ruling.Some?
    case AdjudgedPreserved => needed && ruling.Some? && ruling.value.finding == "meaning_preserved"
    case AdjudgedChanged => needed && ruling.Some? && ruling.value.finding == "material_meaning_changed"
    case AdjudgedUnreadable =>
      needed && ruling.Some? && ruling.value.finding !in ["meaning_preserved", "material_meaning_changed"]
    case _ => false
  }

  ghost function RowFlags(row: Row): set<LedgerFlag> {
    set f: LedgerFlag | RowHolds(f, row)
  }

  /** The counters one row increments in a bucket, in the order of the branches. */
  function RowIncrements(row: Row): seq<LedgerFlag> {
    [RowSupplied, if row.one.finding == row.two.finding then Agreed else Disagreed]
    + (if CHANGED in [row.one.finding, row.two.finding] then [AnyChanged] else [])
    + (if UNREADABLE in [row.one.finding, row.two.finding] then [AnyUnreadable] else [])
    + (if !NeedsAdjudication(row) then []
       else if row.adjudication.None? then [Required, AdjudicationMissing]
       else [Required, AdjudicationSupplied,
             if row.adjudication.value.finding == PRESERVED then AdjudgedPreserved
             else if row.adjudication.value.finding == CHANGED then AdjudgedChanged
             else AdjudgedUnreadable])
  }

  /** The branches increment exactly the counters whose condition holds, each once. */
  lemma RowIncrementsAreExact(row: Row)
    ensures Distinct(RowIncrements(row))
    ensures forall f :: f in RowIncrements(row) <==> f in RowFlags(row)
  {
    assert |PRESERVED| == 17 && |CHANGED| == 24;
    assert PRESERVED == "meaning_preserved" != "material_meaning_changed" == CHANGED;
    assert UNREADABLE == "source_unreadable";
    hide PRESERVED, CHANGED, UNREADABLE;
  }

  ghost function RowMark(row: Row, index: seq<Entry>): LedgerMark {
    Mark(row.key, if HasEntry(index, row.key) then FindEntry(index, row.key).kind else "", RowFlags(row))
  }

  ghost function RowMarks(rows: seq<Row>, index: seq<Entry>): (ms: seq<LedgerMark>)
    ensures |ms| == |rows| && forall i :: 0 <= i < |ms| ==> ms[i] == RowMark(rows[i], index)
  {
    seq(|rows|, i requires 0 <= i < |rows| => RowMark(rows[i], index))
  }

  ghost predicate HasRow(rows: seq<Row>, key: SpanKey) {
    exists i :: 0 <= i < |rows| && rows[i].key == key
  }

  ghost function EntryMark(e: Entry, rows: seq<Row>): LedgerMark {
    Mark(e.key, e.kind, {ReferencePositive, if HasRow(rows, e.key) then Reviewed else Unreviewed})
  }

  ghost function EntryMarks(index: seq<Entry>, rows: seq<Row>): (ms: seq<LedgerMark>)
    ensures |ms| == |index| && forall i :: 0 <= i < |ms| ==> ms[i] == EntryMark(index[i], rows)
  {
    seq(|index|, i requires 0 <= i < |index| => EntryMark(index[i], rows))
  }

  /** Everything the ledger counts: first the positive spans, then the rows. */
  ghost function LedgerMarks(index: seq<Entry>, rows: seq<Row>, n: nat): seq<LedgerMark>
    requires n <= |rows|
  {
    EntryMarks(index, rows) + RowMarks(rows[..n], index)
  }

  lemma {:induction false} NumConcat(a: seq<LedgerMark>, b: seq<LedgerMark>, scope: Scope, f: LedgerFlag)
    ensures Num(a + b, scope, f) == Num(a, scope, f) + Num(b, scope, f)
  {
    if b == [] {
      assert a + b == a;
    } else {
      var n := |b| - 1;
      assert (a + b)[..|a| + n] == a + b[..n];
      NumConcat(a, b[..n], scope, f);
    }
  }

  // ------------------------------------------------------------------
  // The index of positive spans
  // ------------------------------------------------------------------

  /** The entry belongs to this span, which the reference expects to be present. */
  predicate Stems(e: Entry, page: Page, span: Span) {
    span.expected && e == EntryOf(page, span)
  }

  lemma {:induction false} PageIndexOrigin(page: Page, n: nat, e: Entry)
    requires n <= |page.spans|
    ensures e in PageIndex(page, n)
            <==> exists j :: 0 <= j < n && Stems(e, page, page.spans[j])
  {
    hide EntryOf;
    if n == 0 {
    } else {
      PageIndexOrigin(page, n - 1, e);
    }
  }

  lemma {:induction false} IndexOrigin(pages: seq<Page>, e: Entry)
    ensures e in Index(pages)
            <==> exists i, j :: 0 <= i < |pages| && 0 <= j < |pages[i].spans| && Stems(e, pages[i], pages[i].spans[j])
  {
    if pages == [] {
    } else {
      var n := |pages| - 1;
      IndexOrigin(pages[..n], e);
      PageIndexOrigin(pages[n], |pages[n].spans|, e);
      assert Index(pages) == Index(pages[..n]) + PageIndex(pages[n], |pages[n].spans|);
      hide *;
      if e in Index(pages[..n]) {
        var i, j :| 0 <= i < n && 0 <= j < |pages[..n][i].spans| && Stems(e, pages[..n][i], pages[..n][i].spans[j]);
        assert Stems(e, pages[i], pages[i].spans[j]);
      }
      if i, j :| 0 <= i < |pages| && 0 <= j < |pages[i].spans| && Stems(e, pages[i], pages[i].spans[j]) {
        assert i < n ==> Stems(e, pages[..n][i], pages[..n][i].spans[j]);
      }
    }
  }

  lemma {:induction false} PageIndexDistinct(page: Page, n: nat)
    requires n <= |page.spans| && DistinctSpanRefs(page.spans)
    ensures DistinctEntries(PageIndex(page, n))
    ensures forall e :: e in PageIndex(page, n) ==> e.key.caseRef == page.caseRef && e.key.locator == page.locator
  {
    if n == 0 {
    } else {
      PageIndexDistinct(page, n - 1);
      var s := page.spans[n - 1];
      var front := PageIndex(page, n - 1);
      forall k | 0 <= k < |front| ensures front[k].key != EntryOf(page, s).key {
        PageIndexOrigin(page, n - 1, front[k]);
      }
    }
  }

  /** The index never meets a key twice in an accepted study, so the source's test
      for a repeated key cannot fail. */
  lemma {:induction false} IndexDistinct(pages: seq<Page>)
    requires DistinctRefs(pages)
    ensures DistinctEntries(Index(pages))
  {
    if pages == [] {
    } else {
      var n := |pages| - 1;
      var front, last := Index(pages[..n]), PageIndex(pages[n], |pages[n].spans|);
      IndexDistinct(pages[..n]);
      PageIndexDistinct(pages[n], |pages[n].spans|);
      forall k, l | 0 <= k < |front| && 0 <= l < |last| ensures front[k].key != last[l].key {
        IndexOrigin(pages[..n], front[k]);
        assert last[l] in last;
      }
    }
  }

  lemma IndexKinds(pages: seq<Page>)
    requires Accepted(pages)
    ensures forall k :: 0 <= k < |Index(pages)| ==> Index(pages)[k].kind in KINDS
    ensures DistinctEntries(Index(pages))
  {
    AcceptedIsDistinct(pages);
    IndexDistinct(pages);
    forall k | 0 <= k < |Index(pages)| ensures Index(pages)[k].kind in KINDS {
      var e := Index(pages)[k];
      IndexOrigin(pages, e);
      var i, j :| 0 <= i < |pages| && 0 <= j < |pages[i].spans| && Stems(e, pages[i], pages[i].spans[j]);
      assert PageOk(pages[i]);
      assert SpanOk(pages[i], pages[i].spans[j]);
    }
  }

  lemma {:induction false} PageIndexGrows(page: Page, n: nat)
    requires n <= |page.spans|
    ensures PageIndex(page, n) <= PageIndex(page, |page.spans|)
    decreases |page.spans| - n
  {
    hide EntryOf;
    if n == |page.spans| {
    } else {
      PageIndexGrows(page, n + 1);
    }
  }

  lemma {:induction false} IndexGrows(pages: seq<Page>, i: nat)
    requires i <= |pages|
    ensures Index(pages[..i]) <= Index(pages)
    decreases |pages| - i
  {
    if i < |pages| {
      IndexGrows(pages, i + 1);
      assert pages[..i + 1][..i] == pages[..i];
    } else {
      assert pages[..i] == pages;
    }
  }

  /** The next positive span is new to the index built so far. */
  lemma NextIsNew(pages: seq<Page>, i: nat, j: nat)
    requires DistinctEntries(Index(pages)) && i < |pages| && j < |pages[i].spans| && pages[i].spans[j].expected
    ensures !HasEntry(Index(pages[..i]) + PageIndex(pages[i], j), EntryOf(pages[i], pages[i].spans[j]).key)
  {
    var front := Index(pages[..i]) + PageIndex(pages[i], j);
    var e := EntryOf(pages[i], pages[i].spans[j]);
    PageIndexGrows(pages[i], j + 1);
    IndexGrows(pages, i + 1);
    IndexStep(pages, i);
    assert PageIndex(pages[i], j + 1) == PageIndex(pages[i], j) + [e];
    assert front + [e] == Index(pages[..i]) + PageIndex(pages[i], j + 1);
    hide *;
    assert front + [e] <= Index(pages[..i + 1]) <= Index(pages);
    PrefixIsNew(Index(pages), front, e);
  }

  lemma PrefixIsNew(all: seq<Entry>, front: seq<Entry>, e: Entry)
    requires DistinctEntries(all) && front + [e] <= all
    ensures !HasEntry(front, e.key)
  {
    assert all[|front|] == e;
    forall k | 0 <= k < |front| ensures front[k].key != e.key {
      assert all[k] == front[k];
    }
  }

  lemma IndexStep(pages: seq<Page>, i: nat)
    requires i < |pages|
    ensures Index(pages[..i + 1]) == Index(pages[..i]) + PageIndex(pages[i], |pages[i].spans|)
    ensures PageIndex(pages[i], 0) == []
  {
    assert pages[..i + 1][..i] == pages[..i];
  }

  lemma PageIndexStep(page: Page, j: nat)
    requires j < |page.spans|
    ensures PageIndex(page, j + 1)
         == PageIndex(page, j) + if page.spans[j].expected then [EntryOf(page, page.spans[j])] else []
  {
  }

  method IndexPage(pages: seq<Page>, i: nat, index0: seq<Entry>) returns (ok: bool, index: seq<Entry>)
    requires i < |pages| && DistinctEntries(Index(pages)) && index0 == Index(pages[..i])
    ensures ok && index == Index(pages[..i + 1])
  {
    hide *;
    index := index0;
    var page := pages[i];
    IndexStep(pages, i);
    var j := 0;
    while j < |page.spans|
      invariant 0 <= j <= |page.spans|
      invariant index == Index(pages[..i]) + PageIndex(page, j)
    {
      PageIndexStep(page, j);
      if page.spans[j].expected {
        var entry := EntryOf(page, page.spans[j]);
        NextIsNew(pages, i, j);
        if HasEntry(index, entry.key) {
          return false, index;
        }
        index := index + [entry];
      }
      j := j + 1;
    }
    return true, index;
  }

  method BuildIndex(pages: seq<Page>) returns (r: Result<seq<Entry>>)
    requires Accepted(pages)
    ensures r == Ok(Index(pages))
  {
    IndexKinds(pages);
    hide *;
    var index: seq<Entry> := [];
    IndexStart(pages);
    var i := 0;
    while i < |pages|
      invariant 0 <= i <= |pages|
      invariant index == Index(pages[..i])
    {
      var ok;
      ok, index := IndexPage(pages, i, index);
      if !ok {
        return Refused;
      }
      i := i + 1;
    }
    assert pages[..i] == pages;
    return Ok(index);
  }

  lemma IndexStart(pages: seq<Page>)
    ensures Index(pages[..0]) == []
  {
  }

  // ------------------------------------------------------------------
  // The counting loops
  // ------------------------------------------------------------------

  ghost predicate LedgerCounted(overall: LedgerBucket, byKind: map<string, LedgerBucket>, ms: seq<LedgerMark>) {
    CountedAs(overall, byKind, LEDGER, KINDS, ms)
  }

  lemma LedgerStart(byKind: map<string, LedgerBucket>)
    requires (forall k :: k in byKind <==> k in KINDS) && forall k :: k in byKind ==> byKind[k] == BLANK_LEDGER
    ensures LedgerCounted(BLANK_LEDGER, byKind, [])
  {
    CountedNothing<SpanKey, LedgerFlag>(BLANK_LEDGER, byKind, LEDGER, KINDS);
  }

  lemma LedgerStep(overall: LedgerBucket, byKind: map<string, LedgerBucket>, ms: seq<LedgerMark>,
                   m: LedgerMark, incremented: seq<LedgerFlag>)
    requires LedgerCounted(overall, byKind, ms) && m.kind in KINDS
    requires Distinct(incremented) && forall f :: f in LEDGER ==> (f in incremented <==> f in m.flags)
    ensures m.kind in byKind
    ensures LedgerCounted(Bump(overall, incremented), byKind[m.kind := Bump(byKind[m.kind], incremented)], ms + [m])
  {
    KindKnown(overall, byKind, LEDGER, KINDS, ms, m.kind);
    CountedStep(overall, byKind, LEDGER, KINDS, ms, m, incremented);
  }

  lemma EntryFlags(e: Entry, rows: seq<Row>)
    ensures forall f :: f in LEDGER ==> (f in [ReferencePositive] <==> f in EntryMark(e, rows).flags)
  {
    hide HasRow;
  }

  lemma RowsStep(rows: seq<Row>, index: seq<Entry>, i: nat)
    requires i < |rows| && RowsOk(rows, index, i)
    ensures RowsOk(rows, index, i + 1)
            <==> RowOk(rows[i], index) && forall k :: 0 <= k < i ==> rows[k].key != rows[i].key
    ensures !RowsOk(rows, index, i + 1) ==> !RowsOk(rows, index, |rows|)
  {
    hide RowOk;
  }

  lemma RowKind(rows: seq<Row>, index: seq<Entry>, row: Row)
    requires RowOk(row, index) && forall k :: 0 <= k < |index| ==> index[k].kind in KINDS
    ensures HasEntry(index, row.key)
    ensures RowMark(row, index) == Mark(row.key, FindEntry(index, row.key).kind, RowFlags(row))
    ensures RowMark(row, index).kind in KINDS
  {
  }

  lemma LedgerMarksStep(index: seq<Entry>, rows: seq<Row>, i: nat)
    requires i < |rows|
    ensures LedgerMarks(index, rows, 0) == EntryMarks(index, rows)
    ensures LedgerMarks(index, rows, i + 1) == LedgerMarks(index, rows, i) + [RowMark(rows[i], index)]
  {
    hide RowMark, EntryMark;
    assert rows[..i + 1] == rows[..i] + [rows[i]];
    assert RowMarks(rows[..i + 1], index) == RowMarks(rows[..i], index) + [RowMark(rows[i], index)];
  }

  method CountEntries(index: seq<Entry>, ghost rows: seq<Row>)
    returns (overall: LedgerBucket, byKind: map<string, LedgerBucket>)
    requires forall k :: 0 <= k < |index| ==> index[k].kind in KINDS
    ensures LedgerCounted(overall, byKind, EntryMarks(index, rows))
  {
    hide LedgerCounted, EntryMark, Bump, LEDGER;
    overall := BLANK_LEDGER;
    byKind := map k | k in KINDS :: BLANK_LEDGER;
    LedgerStart(byKind);
    ghost var ms := EntryMarks(index, rows);
    assert ms[..0] == [];
    var i := 0;
    while i < |index|
      invariant 0 <= i <= |index|
      invariant LedgerCounted(overall, byKind, ms[..i])
    {
      var kind := index[i].kind;
      EntryFlags(index[i], rows);
      EntryKind(index[i], rows);
      LedgerStep(overall, byKind, ms[..i], ms[i], [ReferencePositive]);
      assert ms[..i + 1] == ms[..i] + [ms[i]];
      overall := Bump(overall, [ReferencePositive]);
      byKind := byKind[kind := Bump(byKind[kind], [ReferencePositive])];
      i := i + 1;
    }
    assert ms[..i] == ms;
  }

  lemma EntryKind(e: Entry, rows: seq<Row>)
    ensures EntryMark(e, rows).kind == e.kind
  {
  }

  method CheckVerdict(v: Verdict) returns (ok: bool)
    ensures ok <==> VerdictOk(v)
  {
    return v.ref != "" && |v.ref| <= 100 && v.finding in FINDINGS;
  }

  /** The tests on one row apart from repetition, in the order of the source. */
  method CheckRow(row: Row, index: seq<Entry>) returns (ok: bool)
    ensures ok <==> RowOk(row, index)
  {
    hide VerdictOk, FindEntry, FINDINGS;
    var key := row.key;
    if key.caseRef == "" || |key.caseRef| > 100 || key.locator == "" || |key.locator| > 100
       || key.ref == "" || |key.ref| > 100 {
      return false;
    }
    if !HasEntry(index, key) {
      return false;
    }
    var entry := FindEntry(index, key);
    if row.sourceSha != entry.sourceSha || row.extractionSha != entry.extractionSha {
      return false;
    }
    var one := CheckVerdict(row.one);
    var two := CheckVerdict(row.two);
    if !one || !two || row.one.ref == row.two.ref {
      return false;
    }
    if row.adjudication.Some? {
      var ruling := CheckVerdict(row.adjudication.value);
      if !ruling || !NeedsAdjudication(row) {
        return false;
      }
      return row.adjudication.value.ref != row.one.ref && row.adjudication.value.ref != row.two.ref;
    }
    return true;
  }

  datatype Tallied = Tallied(planned: nat, pages: nat, overall: LedgerBucket, byKind: map<string, LedgerBucket>)

  /** The counting loops of the reviewer summary; `admitted` stands for the cohort
      and envelope checks. */
  method TallyReviews(pages: seq<Page>, rows: seq<Row>, admitted: bool) returns (r: Result<Tallied>)
    ensures r.Ok? <==> admitted && Reviewable(pages, rows)
    ensures r.Ok? ==> && r.value.planned == |Index(pages)| && r.value.pages == |pages|
                      && LedgerCounted(r.value.overall, r.value.byKind, LedgerMarks(Index(pages), rows, |rows|))
  {
    hide *;
    Reviewing(pages, rows);
    var study := EvaluateLocalStudy(pages);
    if study.Refused? || !admitted || |rows| > MAX_ROWS {
      return Refused;
    }
    IndexKinds(pages);
    var built := BuildIndex(pages);
    var index := built.value;
    var overall, byKind := CountEntries(index, rows);
    NoRows(index, rows);
    var seen: set<SpanKey> := {};
    var i := 0;
    while i < |rows|
      invariant 0 <= i <= |rows|
      invariant LedgerCounted(overall, byKind, LedgerMarks(index, rows, i))
      invariant RowsOk(rows, index, i)
      invariant seen == set k | 0 <= k < i :: rows[k].key
    {
      var row := rows[i];
      RowsStep(rows, index, i);
      var good := CheckRow(row, index);
      if row.key in seen || !good {
        return Refused;
      }
      seen := seen + {row.key};
      RowKind(rows, index, row);
      var kind := FindEntry(index, row.key).kind;
      LedgerMarksStep(index, rows, i);
      SameFlags(row, index);
      RowIncrementsAreExact(row);
      LedgerStep(overall, byKind, LedgerMarks(index, rows, i), RowMark(row, index), RowIncrements(row));
      overall := Bump(overall, RowIncrements(row));
      byKind := byKind[kind := Bump(byKind[kind], RowIncrements(row))];
      i := i + 1;
    }
    return Ok(Tallied(|index|, study.value.pages, overall, byKind));
  }

  /** A row fits the study exactly when it agrees with the index entry of its key. */
  lemma FitsIsOk(row: Row, pages: seq<Page>)
    requires Accepted(pages)
    ensures RowFits(row, pages) <==> RowOk(row, Index(pages))
  {
    IndexKinds(pages);
    var index := Index(pages);
    hide Index, Accepted, RowSays;
    if RowOk(row, index) {
      IndexOrigin(pages, FindEntry(index, row.key));
      var i, j :| 0 <= i < |pages| && 0 <= j < |pages[i].spans|
                  && Stems(FindEntry(index, row.key), pages[i], pages[i].spans[j]);
      assert Reviews(row, pages[i], pages[i].spans[j]);
    }
    if i, j :| 0 <= i < |pages| && 0 <= j < |pages[i].spans| && Reviews(row, pages[i], pages[i].spans[j]) {
      var e := EntryOf(pages[i], pages[i].spans[j]);
      IndexOrigin(pages, e);
      assert Stems(e, pages[i], pages[i].spans[j]);
      var k :| 0 <= k < |index| && index[k] == e;
      EntryIsFound(index, k);
    }
  }

  lemma Reviewing(pages: seq<Page>, rows: seq<Row>)
    ensures Reviewable(pages, rows)
            <==> Accepted(pages) && |rows| <= MAX_ROWS && RowsOk(rows, Index(pages), |rows|)
  {
    hide Accepted, RowFits, RowOk, Index;
    if Accepted(pages) {
      forall i | 0 <= i < |rows| ensures RowFits(rows[i], pages) <==> RowOk(rows[i], Index(pages)) {
        FitsIsOk(rows[i], pages);
      }
    }
  }

  lemma SameFlags(row: Row, index: seq<Entry>)
    ensures RowMark(row, index).flags == RowFlags(row) && RowMark(row, index).key == row.key
  {
  }

  lemma NoRows(index: seq<Entry>, rows: seq<Row>)
    ensures LedgerMarks(index, rows, 0) == EntryMarks(index, rows)
    ensures RowsOk(rows, index, 0)
  {
    assert RowMarks(rows[..0], index) == [];
  }

  // ------------------------------------------------------------------
  // What the ledger adds up to
  // ------------------------------------------------------------------

  predicate RowCoherent(m: LedgerMark) {
    && (RowSupplied in m.flags <==> Agreed in m.flags || Disagreed in m.flags)
    && !(Agreed in m.flags && Disagreed in m.flags)
    && (Required in m.flags <==> AdjudicationSupplied in m.flags || AdjudicationMissing in m.flags)
    && !(AdjudicationSupplied in m.flags && AdjudicationMissing in m.flags)
    && (AdjudgedPreserved in m.flags || AdjudgedChanged in m.flags || AdjudgedUnreadable in m.flags
        <==> AdjudicationSupplied in m.flags)
    && !(AdjudgedPreserved in m.flags && AdjudgedChanged in m.flags)
    && !(AdjudgedPreserved in m.flags && AdjudgedUnreadable in m.flags)
    && !(AdjudgedChanged in m.flags && AdjudgedUnreadable in m.flags)
  }

  lemma RowsAreCoherent(row: Row, index: seq<Entry>)
    ensures RowCoherent(RowMark(row, index))
  {
    hide FindEntry, HasEntry;
  }

  lemma {:induction false} SuppliedSplit(ms: seq<LedgerMark>, scope: Scope)
    requires forall k :: 0 <= k < |ms| ==> RowCoherent(ms[k])
    ensures Num(ms, scope, AdjudicationSupplied)
         == Num(ms, scope, AdjudgedPreserved) + Num(ms, scope, AdjudgedChanged) + Num(ms, scope, AdjudgedUnreadable)
  {
    if ms == [] {
    } else {
      SuppliedSplit(ms[..|ms| - 1], scope);
      assert RowCoherent(ms[|ms| - 1]);
    }
  }

  lemma LedgerCoherent(index: seq<Entry>, rows: seq<Row>)
    ensures var ms := LedgerMarks(index, rows, |rows|);
            forall k :: 0 <= k < |ms| ==> RowCoherent(ms[k])
  {
    var ms := LedgerMarks(index, rows, |rows|);
    forall k | 0 <= k < |ms| ensures RowCoherent(ms[k]) {
      if k < |index| {
        assert ms[k] == EntryMark(index[k], rows);
        hide HasRow;
      } else {
        assert ms[k] == RowMark(rows[k - |index|], index);
        RowsAreCoherent(rows[k - |index|], index);
      }
    }
  }

  /** Rows = agreed + disagreed; required = supplied + missing; supplied is the sum
      of the three verdicts: for each kind and overall. */
  lemma LedgerBalances(index: seq<Entry>, rows: seq<Row>, scope: Scope, b: LedgerBucket)
    requires Counts(b, LEDGER, LedgerMarks(index, rows, |rows|), scope)
    ensures b[RowSupplied] == b[Agreed] + b[Disagreed]
    ensures b[Required] == b[AdjudicationSupplied] + b[AdjudicationMissing]
    ensures b[AdjudicationSupplied] == b[AdjudgedPreserved] + b[AdjudgedChanged] + b[AdjudgedUnreadable]
  {
    var ms := LedgerMarks(index, rows, |rows|);
    LedgerCoherent(index, rows);
    hide LedgerMarks, Num;
    NumSplit(ms, scope, RowSupplied, Agreed, Disagreed);
    NumSplit(ms, scope, Required, AdjudicationSupplied, AdjudicationMissing);
    SuppliedSplit(ms, scope);
  }

  // ------------------------------------------------------------------
  // Spans without a row
  // ------------------------------------------------------------------

  lemma RowsAgainstEntries(index: seq<Entry>, rows: seq<Row>, scope: Scope)
    requires DistinctEntries(index) && RowsOk(rows, index, |rows|)
    ensures Num(EntryMarks(index, rows), scope, Reviewed) == Num(RowMarks(rows, index), scope, RowSupplied)
  {
    var es, rs := EntryMarks(index, rows), RowMarks(rows, index);
    forall k | 0 <= k < |es| && Hits(es[k], scope, Reviewed) ensures HasHit(rs, es[k].key, scope, RowSupplied) {
      EntryHasRow(index, rows, k, scope);
    }
    forall k | 0 <= k < |rs| && Hits(rs[k], scope, RowSupplied) ensures HasHit(es, rs[k].key, scope, Reviewed) {
      RowHasEntry(index, rows, k, scope);
    }
    hide RowMark, EntryMark, RowOk, Num, Hits, HasHit;
    assert forall k :: 0 <= k < |es| ==> es[k].key == index[k].key by { EntryKeys(index, rows); }
    assert forall k :: 0 <= k < |rs| ==> rs[k].key == rows[k].key by { RowKeys(index, rows); }
    NumAgree(es, Reviewed, rs, RowSupplied, scope);
  }

  lemma EntryKeys(index: seq<Entry>, rows: seq<Row>)
    ensures forall k :: 0 <= k < |index| ==> EntryMarks(index, rows)[k].key == index[k].key
  {
  }

  lemma RowKeys(index: seq<Entry>, rows: seq<Row>)
    ensures forall k :: 0 <= k < |rows| ==> RowMarks(rows, index)[k].key == rows[k].key
  {
  }

  lemma EntryIsFound(index: seq<Entry>, k: nat)
    requires k < |index| && DistinctEntries(index)
    ensures HasEntry(index, index[k].key) && FindEntry(index, index[k].key) == index[k]
  {
    var e := FindEntry(index, index[k].key);
    var i :| 0 <= i < |index| && index[i] == e;
    assert i == k;
  }

  lemma EntryHasRow(index: seq<Entry>, rows: seq<Row>, k: nat, scope: Scope)
    requires DistinctEntries(index) && RowsOk(rows, index, |rows|) && k < |index|
    requires Hits(EntryMark(index[k], rows), scope, Reviewed)
    ensures HasHit(RowMarks(rows, index), index[k].key, scope, RowSupplied)
  {
    EntryIsFound(index, k);
    hide FindEntry, RowOk, HasEntry;
    var i :| 0 <= i < |rows| && rows[i].key == index[k].key;
    SameFlags(rows[i], index);
    assert Hits(RowMarks(rows, index)[i], scope, RowSupplied);
  }

  lemma RowHasEntry(index: seq<Entry>, rows: seq<Row>, k: nat, scope: Scope)
    requires DistinctEntries(index) && RowsOk(rows, index, |rows|) && k < |rows|
    requires Hits(RowMark(rows[k], index), scope, RowSupplied)
    ensures HasHit(EntryMarks(index, rows), rows[k].key, scope, Reviewed)
  {
    assert RowOk(rows[k], index);
    var i :| 0 <= i < |index| && index[i].key == rows[k].key;
    EntryIsFound(index, i);
    hide FindEntry, RowFlags;
    assert HasRow(rows, index[i].key);
    assert Hits(EntryMarks(index, rows)[i], scope, Reviewed);
  }

  lemma OnlyEntries(index: seq<Entry>, rows: seq<Row>, scope: Scope)
    ensures Num(EntryMarks(index, rows), scope, RowSupplied) == 0
    ensures Num(EntryMarks(index, rows), scope, AdjudicationMissing) == 0
    ensures Num(RowMarks(rows, index), scope, ReferencePositive) == 0
  {
    hide HasRow, HasEntry, FindEntry, Num, BothPreserved;
    var es, rs := EntryMarks(index, rows), RowMarks(rows, index);
    assert forall k :: 0 <= k < |es| ==> es[k] == EntryMark(index[k], rows);
    assert forall k :: 0 <= k < |rs| ==> rs[k] == RowMark(rows[k], index);
    NumZero(es, scope, RowSupplied);
    NumZero(es, scope, AdjudicationMissing);
    NumZero(rs, scope, ReferencePositive);
  }

  /** Positives minus rows is exactly the number of positive spans without a row:
      never negative, for each kind and overall. */
  lemma MissingRowsAreExact(index: seq<Entry>, rows: seq<Row>, scope: Scope, b: LedgerBucket)
    requires b.Keys == LEDGER && Counts(b, LEDGER, LedgerMarks(index, rows, |rows|), scope)
    requires DistinctEntries(index) && RowsOk(rows, index, |rows|)
    ensures b[ReferencePositive] == b[RowSupplied] + Num(EntryMarks(index, rows), scope, Unreviewed)
    ensures b[AdjudicationMissing] == Num(RowMarks(rows, index), scope, AdjudicationMissing)
  {
    hide *;
    var es, rs := EntryMarks(index, rows), RowMarks(rows, index);
    AllMarks(index, rows);
    LedgerAt(b, LedgerMarks(index, rows, |rows|), scope);
    NumConcat(es, rs, scope, ReferencePositive);
    NumConcat(es, rs, scope, RowSupplied);
    NumConcat(es, rs, scope, AdjudicationMissing);
    OnlyEntries(index, rows, scope);
    RowsAgainstEntries(index, rows, scope);
    EntriesSplit(index, rows, scope);
  }

  lemma AllMarks(index: seq<Entry>, rows: seq<Row>)
    ensures LedgerMarks(index, rows, |rows|) == EntryMarks(index, rows) + RowMarks(rows, index)
  {
    assert rows[..|rows|] == rows;
  }

  lemma LedgerAt(b: LedgerBucket, ms: seq<LedgerMark>, scope: Scope)
    requires Counts(b, LEDGER, ms, scope)
    ensures b[ReferencePositive] == Num(ms, scope, ReferencePositive)
    ensures b[RowSupplied] == Num(ms, scope, RowSupplied)
    ensures b[AdjudicationMissing] == Num(ms, scope, AdjudicationMissing)
  {
  }

  lemma EntriesSplit(index: seq<Entry>, rows: seq<Row>, scope: Scope)
    ensures var es := EntryMarks(index, rows);
            Num(es, scope, ReferencePositive) == Num(es, scope, Reviewed) + Num(es, scope, Unreviewed)
  {
    var es := EntryMarks(index, rows);
    hide HasRow, Num;
    forall k | 0 <= k < |es|
      ensures ReferencePositive in es[k].flags <==> Reviewed in es[k].flags || Unreviewed in es[k].flags
      ensures !(Reviewed in es[k].flags && Unreviewed in es[k].flags)
    {
      assert es[k] == EntryMark(index[k], rows);
    }
    NumSplit(es, scope, ReferencePositive, Reviewed, Unreviewed);
  }

  // ------------------------------------------------------------------
  // The finalized report
  // ------------------------------------------------------------------

  /** A bucket with the rows that are missing and the rate of agreement. */
  datatype Finalized = Finalized(bucket: LedgerBucket, missingRows: int, agreement: Option<real>)

  datatype LedgerReport = LedgerReport(planned: nat, pages: nat, overall: Finalized, byKind: map<string, Finalized>)

  function Finalize(b: LedgerBucket): Finalized
    requires b.Keys == LEDGER
  {
    Finalized(b, b[ReferencePositive] as int - b[RowSupplied] as int,
              Rate(b[Agreed], b[RowSupplied]))
  }

  /** Every published figure of one scope, by what it counts. */
  ghost predicate FinalOf(f: Finalized, index: seq<Entry>, rows: seq<Row>, scope: Scope) {
    && Counts(f.bucket, LEDGER, LedgerMarks(index, rows, |rows|), scope)
    && f.missingRows == Num(EntryMarks(index, rows), scope, Unreviewed)
    && (f.agreement.None? <==> f.bucket[RowSupplied] == 0)
    && (f.agreement.Some? ==>
          && 0.0 <= f.agreement.value <= 1.0
          && (f.agreement.value == 1.0 <==> f.bucket[Disagreed] == 0)
          && f.agreement.value * f.bucket[RowSupplied] as real == f.bucket[Agreed] as real)
  }

  ghost predicate ReportOf(r: LedgerReport, pages: seq<Page>, rows: seq<Row>) {
    && r.planned == Num(Flatten(pages), None, Positive) && r.pages == |pages|
    && FinalOf(r.overall, Index(pages), rows, None)
    && (forall k :: k in r.byKind <==> k in KINDS)
    && (forall k :: k in r.byKind ==> FinalOf(r.byKind[k], Index(pages), rows, Some(k)))
  }

  /** Finalizing an exact bucket publishes exact figures; the missing rows are a
      number of spans, hence never negative. */
  lemma FinalizeIsExact(b: LedgerBucket, index: seq<Entry>, rows: seq<Row>, scope: Scope)
    requires b.Keys == LEDGER && Counts(b, LEDGER, LedgerMarks(index, rows, |rows|), scope)
    requires DistinctEntries(index) && RowsOk(rows, index, |rows|)
    ensures FinalOf(Finalize(b), index, rows, scope) && Finalize(b).missingRows >= 0
  {
    hide *;
    MissingRowsAreExact(index, rows, scope, b);
    LedgerBalances(index, rows, scope, b);
    LedgerKeys();
    FinalizeParts(b, index, rows, scope);
  }

  lemma FinalizeParts(b: LedgerBucket, index: seq<Entry>, rows: seq<Row>, scope: Scope)
    requires b.Keys == LEDGER && Counts(b, LEDGER, LedgerMarks(index, rows, |rows|), scope)
    requires b[ReferencePositive] == b[RowSupplied] + Num(EntryMarks(index, rows), scope, Unreviewed)
    requires b[RowSupplied] == b[Agreed] + b[Disagreed]
    ensures FinalOf(Finalize(b), index, rows, scope) && Finalize(b).missingRows >= 0
  {
    LedgerKeys();
    hide Counts, LedgerMarks, EntryMarks, LEDGER, Num;
    RateFacts(b[Agreed], b[Disagreed]);
  }

  lemma LedgerKeys()
    ensures ReferencePositive in LEDGER && RowSupplied in LEDGER && Agreed in LEDGER && Disagreed in LEDGER
    ensures AdjudicationMissing in LEDGER
  {
  }

  /** The reviewer summary: acceptance and every published figure are exact, for
      each kind and overall. */
  method SummarizeReviews(pages: seq<Page>, rows: seq<Row>, admitted: bool) returns (r: Result<LedgerReport>)
    ensures r.Ok? <==> admitted && Reviewable(pages, rows)
    ensures r.Ok? ==> ReportOf(r.value, pages, rows)
  {
    hide *;
    Reviewing(pages, rows);
    var tallied := TallyReviews(pages, rows, admitted);
    if tallied.Refused? {
      return Refused;
    }
    var Tallied(planned, count, overall, byKind) := tallied.value;
    IndexKinds(pages);
    BucketsOf(overall, byKind, LedgerMarks(Index(pages), rows, |rows|));
    FinalizeIsExact(overall, Index(pages), rows, None);
    forall k | k in byKind ensures FinalOf(Finalize(byKind[k]), Index(pages), rows, Some(k)) {
      FinalizeIsExact(byKind[k], Index(pages), rows, Some(k));
    }
    var report := LedgerReport(planned, count, Finalize(overall), map k | k in byKind :: Finalize(byKind[k]));
    PlannedSpans(pages, rows);
    ReportParts(report, pages, rows);
    return Ok(report);
  }

  /** Every entry of the index is one positive span of the study. */
  lemma PlannedSpans(pages: seq<Page>, rows: seq<Row>)
    ensures |Index(pages)| == Num(Flatten(pages), None, Positive)
  {
    LedgerSeesStudy(pages, rows, None);
    AllPositive(Index(pages), rows);
  }

  lemma {:induction false} AllPositive(index: seq<Entry>, rows: seq<Row>)
    ensures Num(EntryMarks(index, rows), None, ReferencePositive) == |index|
  {
    if index == [] {
    } else {
      var n := |index| - 1;
      AllPositive(index[..n], rows);
      assert index == index[..n] + [index[n]];
      EntryPush(index[..n], index[n], rows, None);
    }
  }

  lemma BucketsOf(overall: LedgerBucket, byKind: map<string, LedgerBucket>, ms: seq<LedgerMark>)
    requires LedgerCounted(overall, byKind, ms)
    ensures overall.Keys == LEDGER && Counts(overall, LEDGER, ms, None)
    ensures forall k :: k in byKind <==> k in KINDS
    ensures forall k :: k in byKind ==> byKind[k].Keys == LEDGER && Counts(byKind[k], LEDGER, ms, Some(k))
  {
  }

  lemma ReportParts(r: LedgerReport, pages: seq<Page>, rows: seq<Row>)
    requires r.planned == Num(Flatten(pages), None, Positive) && r.pages == |pages|
    requires FinalOf(r.overall, Index(pages), rows, None)
    requires forall k :: k in r.byKind <==> k in KINDS
    requires forall k :: k in r.byKind ==> FinalOf(r.byKind[k], Index(pages), rows, Some(k))
    ensures ReportOf(r, pages, rows)
  {
    hide FinalOf, Index, KINDS;
  }

  /** The packet's flag, computed from the finalized overall bucket. */
  predicate StructurallyComplete(overall: Finalized)
    requires overall.bucket.Keys == LEDGER
  {
    overall.missingRows == 0 && overall.bucket[AdjudicationMissing] == 0
  }

  /** The flag holds exactly when every positive span has a row and every row that
      needs adjudication carries one. */
  lemma CompletenessFlag(pages: seq<Page>, rows: seq<Row>, overall: Finalized)
    requires Reviewable(pages, rows) && FinalOf(overall, Index(pages), rows, None)
    ensures StructurallyComplete(overall)
            <==> && (forall i, j :: 0 <= i < |pages| && 0 <= j < |pages[i].spans| && pages[i].spans[j].expected
                       ==> HasRow(rows, SpanKey(pages[i].caseRef, pages[i].locator, pages[i].spans[j].ref)))
                 && (forall k :: 0 <= k < |rows| && rows[k].adjudication.None? ==> BothPreserved(rows[k]))
  {
    Reviewing(pages, rows);
    FlagCases(overall, Index(pages), rows);
    IndexKinds(pages);
    hide *;
    MissingRowsAreExact(Index(pages), rows, None, overall.bucket);
    UnreviewedZero(Index(pages), rows);
    UnadjudicatedZero(Index(pages), rows);
    EveryPositive(pages, rows);
  }

  lemma FlagCases(overall: Finalized, index: seq<Entry>, rows: seq<Row>)
    requires FinalOf(overall, index, rows, None)
    ensures overall.bucket.Keys == LEDGER && Counts(overall.bucket, LEDGER, LedgerMarks(index, rows, |rows|), None)
    ensures AdjudicationMissing in overall.bucket
    ensures StructurallyComplete(overall)
            <==> Num(EntryMarks(index, rows), None, Unreviewed) == 0 && overall.bucket[AdjudicationMissing] == 0
  {
    LedgerKeys();
    hide LEDGER, Num, EntryMarks, LedgerMarks;
  }

  lemma UnreviewedZero(index: seq<Entry>, rows: seq<Row>)
    ensures Num(EntryMarks(index, rows), None, Unreviewed) == 0
            <==> forall k :: 0 <= k < |index| ==> HasRow(rows, index[k].key)
  {
    var ms := EntryMarks(index, rows);
    NumZero(ms, None, Unreviewed);
    hide HasRow, Num;
    forall k | 0 <= k < |index| ensures Unreviewed in ms[k].flags <==> !HasRow(rows, index[k].key) {
      assert ms[k] == EntryMark(index[k], rows);
    }
  }

  lemma UnadjudicatedZero(index: seq<Entry>, rows: seq<Row>)
    ensures Num(RowMarks(rows, index), None, AdjudicationMissing) == 0
            <==> forall k :: 0 <= k < |rows| && rows[k].adjudication.None? ==> BothPreserved(rows[k])
  {
    var ms := RowMarks(rows, index);
    NumZero(ms, None, AdjudicationMissing);
    hide Num, HasEntry, FindEntry;
    forall k | 0 <= k < |rows|
      ensures AdjudicationMissing in ms[k].flags <==> !BothPreserved(rows[k]) && rows[k].adjudication.None?
    {
      assert ms[k] == RowMark(rows[k], index);
    }
  }

  lemma EveryPositive(pages: seq<Page>, rows: seq<Row>)
    ensures (forall k :: 0 <= k < |Index(pages)| ==> HasRow(rows, Index(pages)[k].key))
            <==> forall i, j :: 0 <= i < |pages| && 0 <= j < |pages[i].spans| && pages[i].spans[j].expected
                   ==> HasRow(rows, SpanKey(pages[i].caseRef, pages[i].locator, pages[i].spans[j].ref))
  {
    hide HasRow, Index;
    var index := Index(pages);
    if forall k :: 0 <= k < |index| ==> HasRow(rows, index[k].key) {
      forall i, j | 0 <= i < |pages| && 0 <= j < |pages[i].spans| && pages[i].spans[j].expected
        ensures HasRow(rows, SpanKey(pages[i].caseRef, pages[i].locator, pages[i].spans[j].ref))
      {
        var e := EntryOf(pages[i], pages[i].spans[j]);
        IndexOrigin(pages, e);
        assert Stems(e, pages[i], pages[i].spans[j]);
        var k :| 0 <= k < |index| && index[k] == e;
      }
    }
    forall k | 0 <= k < |index|
      ensures exists i, j :: 0 <= i < |pages| && 0 <= j < |pages[i].spans|
                             && Stems(index[k], pages[i], pages[i].spans[j])
    {
      IndexOrigin(pages, index[k]);
    }
  }

  /** The ledger's positives are the study's own count of positive spans. */
  lemma {:induction false} LedgerSeesStudy(pages: seq<Page>, rows: seq<Row>, scope: Scope)
    ensures Num(EntryMarks(Index(pages), rows), scope, ReferencePositive) == Num(Flatten(pages), scope, Positive)
  {
    if pages == [] {
    } else {
      var n := |pages| - 1;
      LedgerSeesStudy(pages[..n], rows, scope);
      PageSeesStudy(pages[..n], pages[n], |pages[n].spans|, rows, scope);
      assert PageMarks(pages[n])[..|pages[n].spans|] == PageMarks(pages[n]);
    }
  }

  lemma {:induction false} PageSeesStudy(front: seq<Page>, page: Page, n: nat, rows: seq<Row>, scope: Scope)
    requires n <= |page.spans|
    requires Num(EntryMarks(Index(front), rows), scope, ReferencePositive) == Num(Flatten(front), scope, Positive)
    ensures Num(EntryMarks(Index(front) + PageIndex(page, n), rows), scope, ReferencePositive)
         == Num(Flatten(front) + PageMarks(page)[..n], scope, Positive)
  {
    NoSpansYet(page);
    hide *;
    if n == 0 {
      assert Index(front) + [] == Index(front);
      assert Flatten(front) + [] == Flatten(front);
    } else {
      PageSeesStudy(front, page, n - 1, rows, scope);
      var span := page.spans[n - 1];
      var ms, m := Flatten(front) + PageMarks(page)[..n - 1], MarkOf(page, span);
      var before, e := Index(front) + PageIndex(page, n - 1), EntryOf(page, span);
      OneSpan(front, page, n);
      NumPush(ms, m, scope, Positive);
      EntryPush(before, e, rows, scope);
    }
  }

  lemma NoSpansYet(page: Page)
    ensures PageIndex(page, 0) == [] && PageMarks(page)[..0] == []
  {
  }

  lemma OneSpan(front: seq<Page>, page: Page, n: nat)
    requires 0 < n <= |page.spans|
    ensures var span := page.spans[n - 1];
            && Flatten(front) + PageMarks(page)[..n]
               == Flatten(front) + PageMarks(page)[..n - 1] + [MarkOf(page, span)]
            && Index(front) + PageIndex(page, n)
               == (if span.expected then Index(front) + PageIndex(page, n - 1) + [EntryOf(page, span)]
                   else Index(front) + PageIndex(page, n - 1))
            && (Positive in MarkOf(page, span).flags <==> span.expected)
            && EntryOf(page, span).kind == MarkOf(page, span).kind
  {
    hide Flatten, Index;
    FlagIs(page, page.spans[n - 1], Positive);
    hide Contains;
    assert PageMarks(page)[..n] == PageMarks(page)[..n - 1] + [PageMarks(page)[n - 1]];
  }

  lemma EntryPush(index: seq<Entry>, e: Entry, rows: seq<Row>, scope: Scope)
    ensures Num(EntryMarks(index + [e], rows), scope, ReferencePositive)
         == Num(EntryMarks(index, rows), scope, ReferencePositive) + if InScope(scope, e.kind) then 1 else 0
  {
    hide HasRow, Num;
    assert EntryMarks(index + [e], rows) == EntryMarks(index, rows) + [EntryMark(e, rows)];
    NumPush(EntryMarks(index, rows), EntryMark(e, rows), scope, ReferencePositive);
  }

  // ------------------------------------------------------------------
  // The offline packet
  // ------------------------------------------------------------------

  /** The published counters of the ledger and the study count the same spans. */
  lemma LedgerEqualsStudy(pages: seq<Page>, rows: seq<Row>, scope: Scope, ledger: LedgerBucket, study: Bucket)
    requires Counts(ledger, LEDGER, LedgerMarks(Index(pages), rows, |rows|), scope)
    requires Counts(study, COUNTERS, Flatten(pages), scope)
    ensures ledger[ReferencePositive] == study[Positive]
  {
    var ms := LedgerMarks(Index(pages), rows, |rows|);
    LedgerAt(ledger, ms, scope);
    AllMarks(Index(pages), rows);
    NumConcat(EntryMarks(Index(pages), rows), RowMarks(rows, Index(pages)), scope, ReferencePositive);
    OnlyEntries(Index(pages), rows, scope);
    LedgerSeesStudy(pages, rows, scope);
    hide LedgerMarks, Num, Index, EntryMarks, RowMarks, Flatten;
  }

  /** Ledger, study and paired comparison publish one number of positive spans, for
      each kind and overall, whichever of the two studies the rows review. */
  lemma ThreeCountsAgree(left: seq<Page>, right: seq<Page>, expected: Paired.Expected, rows: seq<Row>, scope: Scope,
                         ledger: LedgerBucket, b: Bucket, c: Bucket, pairs: map<Paired.PairFlag, nat>)
    requires Paired.Comparable(left, right, expected)
    requires Counts(b, COUNTERS, Flatten(left), scope) && Counts(c, COUNTERS, Flatten(right), scope)
    requires Counts(pairs, Paired.PAIR_COUNTERS, Paired.Pairs(left, right), scope)
    requires || Counts(ledger, LEDGER, LedgerMarks(Index(left), rows, |rows|), scope)
             || Counts(ledger, LEDGER, LedgerMarks(Index(right), rows, |rows|), scope)
    ensures ledger[ReferencePositive] == b[Positive] == c[Positive] == pairs[Paired.PositiveSpans]
  {
    Paired.StudiesAgree(left, right, expected, scope, b, c, pairs);
    hide LedgerMarks, Index, Flatten, Paired.Comparable, Paired.Pairs;
    if Counts(ledger, LEDGER, LedgerMarks(Index(left), rows, |rows|), scope) {
      LedgerEqualsStudy(left, rows, scope, ledger, b);
    } else {
      LedgerEqualsStudy(right, rows, scope, ledger, c);
    }
  }

  datatype PacketReport = PacketReport(literal: Report, reviews: Option<(LedgerReport, bool)>)

  /** Study metrics plus, when reviews are supplied, the ledger and its flag. */
  method EvaluatePacket(pages: seq<Page>, reviews: Option<seq<Row>>, admitted: bool)
    returns (r: Result<PacketReport>)
    ensures r.Ok? <==> admitted && Accepted(pages) && (reviews.Some? ==> Reviewable(pages, reviews.value))
    ensures r.Ok? ==> && r.value.literal.pages == |pages|
                      && StudyCounted(r.value.literal.overall, r.value.literal.byKind, Flatten(pages))
                      && r.value.reviews.Some? == reviews.Some?
    ensures r.Ok? && reviews.Some? ==>
              && ReportOf(r.value.reviews.value.0, pages, reviews.value)
              && SamePositives(r.value.reviews.value.0, r.value.literal)
    ensures r.Ok? && reviews.Some? ==>
              (r.value.reviews.value.1
               <==> && (forall i, j :: 0 <= i < |pages| && 0 <= j < |pages[i].spans| && pages[i].spans[j].expected
                          ==> HasRow(reviews.value, SpanKey(pages[i].caseRef, pages[i].locator, pages[i].spans[j].ref)))
                    && (forall k :: 0 <= k < |reviews.value| && reviews.value[k].adjudication.None?
                          ==> BothPreserved(reviews.value[k])))
  {
    hide *;
    if !admitted {
      return Refused;
    }
    var study := EvaluateLocalStudy(pages);
    if study.Refused? {
      return Refused;
    }
    if reviews.None? {
      return Ok(PacketReport(study.value, None));
    }
    var summary := SummarizeReviews(pages, reviews.value, true);
    if summary.Refused? {
      return Refused;
    }
    OverallOf(summary.value, pages, reviews.value);
    CompletenessFlag(pages, reviews.value, summary.value.overall);
    PositivesAgree(summary.value, study.value, pages, reviews.value);
    return Ok(PacketReport(study.value, Some((summary.value, StructurallyComplete(summary.value.overall)))));
  }

  lemma OverallOf(r: LedgerReport, pages: seq<Page>, rows: seq<Row>)
    requires ReportOf(r, pages, rows)
    ensures FinalOf(r.overall, Index(pages), rows, None) && r.overall.bucket.Keys == LEDGER
  {
    hide Num, LedgerMarks, Index, EntryMarks;
  }

  /** Both parts of a packet show the same positives, overall and for each kind. */
  ghost predicate SamePositives(r: LedgerReport, study: Report) {
    && ReferencePositive in r.overall.bucket && Positive in study.overall
    && r.overall.bucket[ReferencePositive] == study.overall[Positive]
    && r.byKind.Keys == study.byKind.Keys
    && forall k :: k in r.byKind ==>
         && ReferencePositive in r.byKind[k].bucket && Positive in study.byKind[k]
         && r.byKind[k].bucket[ReferencePositive] == study.byKind[k][Positive]
  }

  lemma PositivesAgree(r: LedgerReport, study: Report, pages: seq<Page>, rows: seq<Row>)
    requires ReportOf(r, pages, rows) && StudyCounted(study.overall, study.byKind, Flatten(pages))
    ensures SamePositives(r, study)
  {
    LedgerKeys();
    hide LedgerMarks, Index, Flatten, Num, EntryMarks, KINDS, LEDGER;
    LedgerEqualsStudy(pages, rows, None, r.overall.bucket, study.overall);
    forall k | k in r.byKind
      ensures ReferencePositive in r.byKind[k].bucket && Positive in study.byKind[k]
      ensures r.byKind[k].bucket[ReferencePositive] == study.byKind[k][Positive]
    {
      LedgerEqualsStudy(pages, rows, Some(k), r.byKind[k].bucket, study.byKind[k]);
    }
  }
}

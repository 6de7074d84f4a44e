/** Which checks a change needs: reading the NUL-framed change list, the backend
    classifier and the independently kept browser-test admission. */
module ChangeScope {
  import opened Outcomes
  import opened PyText
  import opened Tally

  const AUDITED: seq<string> :=
    ["apps/api/tests/test_local_ai_hm_loopback_smoke.py",
     "apps/api/tests/test_local_ai_hm_fixture_matrix.py",
     "apps/api/tests/test_local_ai_hm_repeat_smoke.py"]

  /** The browser gate's own registry. */
  const ELIGIBLE: seq<string> :=
    ["apps/api/tests/test_local_ai_hm_loopback_smoke.py",
     "apps/api/tests/test_local_ai_hm_fixture_matrix.py",
     "apps/api/tests/test_local_ai_hm_repeat_smoke.py"]

  const PG_ONLY: seq<string> :=
    ["apps/api/tests/test_external_document_source_recurring_observation_schedule_concurrency_postgres.py",
     "apps/api/tests/test_external_document_source_due_tick_dispatch_concurrency_postgres.py",
     "apps/api/tests/test_external_document_source_due_tick_observation_concurrency_postgres.py",
     "apps/api/tests/test_external_document_source_observation_refresh_execution_concurrency_postgres.py",
     "apps/api/tests/test_external_document_source_observation_review_handoff_concurrency_postgres.py",
     "apps/api/tests/test_external_document_source_observation_review_decision_concurrency_postgres.py",
     "apps/api/tests/test_external_document_source_due_tick_service_executor_concurrency_postgres.py",
     "apps/api/tests/test_external_document_source_observation_refresh_admission_authorization_concurrency_postgres.py",
     "apps/api/tests/test_external_document_source_family_version_concurrency_postgres.py",
     "apps/api/tests/test_processing_lease_postgres.py",
     "apps/api/tests/test_payment_settlement_concurrency_postgres.py",
     "apps/api/tests/test_external_document_source_observation_refresh_admission_execution_concurrency_postgres.py",
     "apps/api/tests/test_external_document_source_sftp_handshake_execution_concurrency_postgres.py"]

  const PG_WORKFLOW := ".github/workflows/postgres-concurrency-regressions.yml"

  const BACKEND_FILES: seq<string> :=
    [".github/workflows/backend-premerge.yml", "scripts/ci_backend_narrow_scope.py",
     "scripts/ci_postgres_synthetic_test_scope.py", "scripts/backend_shard_selector.py"]

  datatype Entry = Entry(status: string, path: string)

  // ------------------------------------------------------------------
  // The NUL-framed change list
  // ------------------------------------------------------------------

  const NUL: char := 0 as char

  predicate Ascii(s: string) {
    forall i :: 0 <= i < |s| ==> s[i] as int < 128
  }

  function Pairs(parts: seq<string>): seq<Entry>
    requires |parts| % 2 == 0
  {
    if parts == [] then [] else [Entry(parts[0], parts[1])] + Pairs(parts[2..])
  }

  function Fields(entries: seq<Entry>): (parts: seq<string>)
    ensures |parts| == 2 * |entries|
  {
    if entries == [] then [] else [entries[0].status, entries[0].path] + Fields(entries[1..])
  }

  predicate AllAscii(entries: seq<Entry>) {
    forall i :: 0 <= i < |entries| ==> Ascii(entries[i].status)
  }

  function ParseGitDiff(data: string): Result<seq<Entry>> {
    if data == "" || data[|data| - 1] != NUL then Refused
    else
      var parts := SplitOn(data[..|data| - 1], NUL);
      if |parts| % 2 != 0 then Refused
      else if !AllAscii(Pairs(parts)) then Refused
      else Ok(Pairs(parts))
  }

  /** `git diff --name-status -z`: every field followed by one NUL. */
  function PrintGitDiff(entries: seq<Entry>): string {
    Framed(Fields(entries), NUL)
  }

  /** What a change list may hold: ASCII statuses and no NUL in any field. */
  ghost predicate Printable(entries: seq<Entry>) {
    && entries != []
    && (forall i, j :: 0 <= i < |entries| && 0 <= j < |entries[i].status| ==> entries[i].status[j] as int <= 127)
    && forall i :: 0 <= i < |entries| ==> '\0' !in entries[i].status && '\0' !in entries[i].path
  }

  lemma PrintableCases(entries: seq<Entry>)
    ensures Printable(entries)
            <==> && entries != [] && AllAscii(entries)
                 && forall i :: 0 <= i < |entries| ==> Free(entries[i].status, NUL) && Free(entries[i].path, NUL)
  {
  }

  lemma {:induction false} PairsOfFields(entries: seq<Entry>)
    ensures Pairs(Fields(entries)) == entries
  {
    if entries == [] {
    } else {
      PairsOfFields(entries[1..]);
      assert Fields(entries)[2..] == Fields(entries[1..]);
    }
  }

  lemma {:induction false} FieldsOfPairs(parts: seq<string>)
    requires |parts| % 2 == 0
    ensures Fields(Pairs(parts)) == parts
    ensures |Pairs(parts)| * 2 == |parts|
  {
    if parts == [] {
    } else {
      FieldsOfPairs(parts[2..]);
      assert parts == [parts[0], parts[1]] + parts[2..];
    }
  }

  lemma {:induction false} FieldsFree(entries: seq<Entry>)
    ensures AllFree(Fields(entries), NUL)
            <==> forall i :: 0 <= i < |entries| ==> Free(entries[i].status, NUL) && Free(entries[i].path, NUL)
  {
    hide Free;
    if entries == [] {
    } else {
      FieldsFree(entries[1..]);
      var tail := Fields(entries[1..]);
      assert Fields(entries) == [entries[0].status, entries[0].path] + tail;
      assert Fields(entries)[0] == entries[0].status && Fields(entries)[1] == entries[0].path;
      assert forall p :: p in tail ==> p in Fields(entries);
      assert forall p :: p in Fields(entries) ==> p == entries[0].status || p == entries[0].path || p in tail;
      forall i | 0 <= i < |entries| && AllFree(Fields(entries), NUL)
        ensures Free(entries[i].status, NUL) && Free(entries[i].path, NUL)
      {
        if i > 0 { assert entries[i] == entries[1..][i - 1]; }
      }
    }
  }

  /** Reading inverts printing. */
  lemma ParsePrinted(entries: seq<Entry>)
    requires Printable(entries)
    ensures ParseGitDiff(PrintGitDiff(entries)) == Ok(entries)
  {
    PrintableCases(entries);
    hide AllFree, Free, Ascii, NUL, SplitOn, Framed, Printable;
    FieldsFree(entries);
    UnframeFramed(Fields(entries), NUL);
    PairsOfFields(entries);
  }

  /** Whatever is read prints back to the same bytes, so two lists never share one. */
  lemma PrintParsed(data: string)
    requires ParseGitDiff(data).Ok?
    ensures Printable(ParseGitDiff(data).value) && PrintGitDiff(ParseGitDiff(data).value) == data
  {
    PrintableCases(ParseGitDiff(data).value);
    hide AllFree, Free, Ascii, NUL, SplitOn, Framed, JoinWith, Printable;
    var body := data[..|data| - 1];
    var parts := SplitOn(body, NUL);
    JoinSplit(body, NUL);
    FramedIsJoined(parts, NUL);
    FieldsOfPairs(parts);
    FieldsFree(Pairs(parts));
    assert data == body + [NUL];
  }

  // ------------------------------------------------------------------
  // The backend classifier
  // ------------------------------------------------------------------

  /** The narrow test list is what the backend job runs instead of everything. */
  datatype Mode = Full | Narrow(tests: seq<string>) | NoBackend

  predicate StartsWith(s: string, prefix: string) {
    |prefix| <= |s| && s[..|prefix|] == prefix
  }

  predicate TouchesBackend(path: string) {
    && path !in PG_ONLY && path != PG_WORKFLOW
    && (StartsWith(path, "apps/api/") || path in BACKEND_FILES)
  }

  /** A backend path lies under the API directory or is one of four files, and is not
      one of the thirteen PostgreSQL regressions or their workflow. */
  lemma BackendPaths(path: string)
    ensures TouchesBackend(path)
            <==> && path !in PG_ONLY && path != ".github/workflows/postgres-concurrency-regressions.yml"
                 && ((exists rest :: path == "apps/api/" + rest)
                     || path == ".github/workflows/backend-premerge.yml" || path == "scripts/ci_backend_narrow_scope.py"
                     || path == "scripts/ci_postgres_synthetic_test_scope.py"
                     || path == "scripts/backend_shard_selector.py")
    ensures |PG_ONLY| == 13
  {
    if StartsWith(path, "apps/api/") {
      assert path == "apps/api/" + path[9..];
    }
    BackendFiles(path);
    hide PG_ONLY, BACKEND_FILES;
    if rest :| path == "apps/api/" + rest {
      assert path[..9] == "apps/api/";
    }
  }

  lemma BackendFiles(path: string)
    ensures path in BACKEND_FILES
            <==> || path == ".github/workflows/backend-premerge.yml" || path == "scripts/ci_backend_narrow_scope.py"
                 || path == "scripts/ci_postgres_synthetic_test_scope.py"
                 || path == "scripts/backend_shard_selector.py"
    ensures |PG_ONLY| == 13
  {
    hide PG_WORKFLOW;
  }

  /** An entry that alone forces the full run. `dbFree` holds the audited files
      whose current text needs no database. */
  predicate Harmful(e: Entry, dbFree: set<string>) {
    || e.path == "" || e.status !in ["M", "A", "D"]
    || if e.path in AUDITED then e.status != "M" || e.path !in dbFree else TouchesBackend(e.path)
  }

  /** Some entry is harmful, or an audited file is listed twice. */
  ghost predicate Unsafe(m: multiset<Entry>, dbFree: set<string>) {
    exists e :: e in m && (Harmful(e, dbFree) || (e.path in AUDITED && m[e] >= 2))
  }

  ghost predicate TouchesAudited(m: multiset<Entry>) {
    exists e :: e in m && e.path in AUDITED
  }

  ghost predicate TouchesOther(m: multiset<Entry>) {
    exists e :: e in m && e.path !in AUDITED
  }

  ghost predicate ListsAudited(paths: seq<string>, m: multiset<Entry>) {
    forall p :: p in Items(paths) <==> p in AUDITED && exists e :: e in m && e.path == p
  }

  /** The part after the last slash. */
  function BaseName(p: string): string {
    if '/' !in p then p else BaseName(p[IndexOf(p, '/') + 1..])
  }

  lemma CutAtSlash(p: string) returns (front: string, rest: string)
    requires '/' in p
    ensures p == front + rest && front != "" && front[|front| - 1] == '/' && BaseName(p) == BaseName(rest)
  {
    var i := IndexOf(p, '/');
    front, rest := p[..i + 1], p[i + 1..];
  }

  lemma DirectoryGrows(front: string, inner: string, name: string)
    requires front != "" && front[|front| - 1] == '/' && (inner == "" || inner[|inner| - 1] == '/')
    ensures front + (inner + name) == (front + inner) + name
    ensures (front + inner)[|front + inner| - 1] == '/'
  {
  }

  lemma NoSlash(p: string)
    requires '/' !in p
    ensures BaseName(p) == p == "" + p
  {
  }

  /** It holds no slash and is what follows the last one. */
  lemma {:induction false} BaseNameIs(p: string) returns (dir: string)
    ensures '/' !in BaseName(p) && p == dir + BaseName(p) && (dir == "" || dir[|dir| - 1] == '/')
    decreases |p|
  {
    hide *;
    if '/' !in p {
      NoSlash(p);
      dir := "";
    } else {
      var front, rest := CutAtSlash(p);
      var inner := BaseNameIs(rest);
      DirectoryGrows(front, inner, BaseName(rest));
      dir := front + inner;
    }
  }

  function TestNames(paths: seq<string>): (r: seq<string>)
    ensures |r| == |paths| && forall i :: 0 <= i < |r| ==> r[i] == "tests/" + BaseName(paths[i])
  {
    seq(|paths|, i requires 0 <= i < |paths| => "tests/" + BaseName(paths[i]))
  }

  /** What the classifier may answer for a collection of changes, whatever their order. */
  ghost predicate IsMode(m: multiset<Entry>, dbFree: set<string>, r: Mode) {
    match r
    case Full => m == multiset{} || Unsafe(m, dbFree) || (TouchesAudited(m) && TouchesOther(m))
    case NoBackend => m != multiset{} && !Unsafe(m, dbFree) && !TouchesAudited(m)
    case Narrow(tests) =>
      && !Unsafe(m, dbFree) && TouchesAudited(m) && !TouchesOther(m)
      && exists paths :: Increasing(paths) && ListsAudited(paths, m) && tests == TestNames(paths)
  }

  /** The entries seen so far left no reason for the full run. */
  ghost predicate Scanned(m: multiset<Entry>, dbFree: set<string>, eligible: seq<string>, sawOther: bool) {
    && !Unsafe(m, dbFree) && Distinct(eligible) && ListsAudited(eligible, m)
    && (sawOther <==> TouchesOther(m))
  }

  lemma ScanStart(dbFree: set<string>)
    ensures Scanned(multiset{}, dbFree, [], false)
  {
  }

  lemma ScanAudited(m: multiset<Entry>, dbFree: set<string>, eligible: seq<string>, sawOther: bool, e: Entry)
    requires Scanned(m, dbFree, eligible, sawOther) && e.path in AUDITED
    requires !Harmful(e, dbFree) && e.path !in eligible
    ensures Scanned(m + multiset{e}, dbFree, eligible + [e.path], sawOther)
  {
    hide AUDITED, Harmful;
    var next := m + multiset{e};
    assert e !in m;
    assert e in next && forall f :: f in m ==> f in next && next[f] == m[f];
  }

  lemma ScanOther(m: multiset<Entry>, dbFree: set<string>, eligible: seq<string>, sawOther: bool, e: Entry)
    requires Scanned(m, dbFree, eligible, sawOther) && e.path !in AUDITED && !Harmful(e, dbFree)
    ensures Scanned(m + multiset{e}, dbFree, eligible, true)
  {
    hide AUDITED, Harmful;
    var next := m + multiset{e};
    assert e in next && forall f :: f in m ==> f in next;
    assert forall f :: f in next && f != e ==> next[f] == m[f];
    forall p ensures p in Items(eligible) <==> p in AUDITED && exists f :: f in next && f.path == p {
      if f :| f in next && f.path == p && p in AUDITED {
        assert f in m;
      }
    }
  }

  /** A repeated audited path is the same modified entry twice. */
  lemma RepeatIsUnsafe(m: multiset<Entry>, dbFree: set<string>, eligible: seq<string>, sawOther: bool, e: Entry)
    requires Scanned(m, dbFree, eligible, sawOther) && e.path in AUDITED && e.status == "M" && e.path in eligible
    ensures Unsafe(m + multiset{e}, dbFree)
  {
    assert e.path in Items(eligible);
    var f :| f in m && f.path == e.path;
    assert !Harmful(f, dbFree);
    assert f == e;
    assert (m + multiset{e})[e] >= 2;
  }

  lemma UnsafeGrows(m: multiset<Entry>, more: multiset<Entry>, dbFree: set<string>)
    requires Unsafe(m, dbFree)
    ensures Unsafe(m + more, dbFree)
  {
    hide Harmful, AUDITED;
    var e :| e in m && (Harmful(e, dbFree) || (e.path in AUDITED && m[e] >= 2));
    assert e in m + more;
  }

  /** The entries before `i`, entry `i`, and the entries after it. */
  lemma SplitEntries(entries: seq<Entry>, i: nat)
    requires i < |entries|
    ensures multiset(entries[..i + 1]) == multiset(entries[..i]) + multiset{entries[i]}
    ensures multiset(entries) == multiset(entries[..i]) + multiset{entries[i]} + multiset(entries[i + 1..])
  {
    assert entries[..i + 1] == entries[..i] + [entries[i]];
    assert entries == entries[..i] + [entries[i]] + entries[i + 1..];
  }

  lemma FullBecauseOf(entries: seq<Entry>, i: nat, dbFree: set<string>)
    requires i < |entries|
    requires Unsafe(multiset(entries[..i]) + multiset{entries[i]}, dbFree)
    ensures IsMode(multiset(entries), dbFree, Full)
  {
    hide Unsafe;
    SplitEntries(entries, i);
    UnsafeGrows(multiset(entries[..i]) + multiset{entries[i]}, multiset(entries[i + 1..]), dbFree);
  }

  lemma HarmIsUnsafe(m: multiset<Entry>, e: Entry, dbFree: set<string>)
    requires Harmful(e, dbFree)
    ensures Unsafe(m + multiset{e}, dbFree)
  {
    hide Harmful, AUDITED;
    assert e in m + multiset{e};
  }

  /** Scans the change list once; the answer depends on its multiset only. */
  method Classify(entries: seq<Entry>, dbFree: set<string>) returns (r: Mode)
    ensures IsMode(multiset(entries), dbFree, r)
  {
    hide AUDITED, PG_ONLY, PG_WORKFLOW, BACKEND_FILES, Scanned, Unsafe, TouchesBackend;
    if entries == [] {
      return Full;
    }
    var eligible: seq<string> := [];
    var sawOther := false;
    ScanStart(dbFree);
    for i := 0 to |entries|
      invariant Scanned(multiset(entries[..i]), dbFree, eligible, sawOther)
    {
      var e := entries[i];
      ghost var m := multiset(entries[..i]);
      SplitEntries(entries, i);
      if e.path == "" || e.status !in ["M", "A", "D"] {
        HarmIsUnsafe(m, e, dbFree);
        FullBecauseOf(entries, i, dbFree);
        return Full;
      }
      if e.path in AUDITED {
        if e.status != "M" || e.path !in dbFree {
          HarmIsUnsafe(m, e, dbFree);
          FullBecauseOf(entries, i, dbFree);
          return Full;
        }
        if e.path in eligible {
          RepeatIsUnsafe(m, dbFree, eligible, sawOther, e);
          FullBecauseOf(entries, i, dbFree);
          return Full;
        }
        ScanAudited(m, dbFree, eligible, sawOther, e);
        eligible := eligible + [e.path];
      } else {
        if TouchesBackend(e.path) {
          HarmIsUnsafe(m, e, dbFree);
          FullBecauseOf(entries, i, dbFree);
          return Full;
        }
        ScanOther(m, dbFree, eligible, sawOther, e);
        sawOther := true;
      }
    }
    assert entries[..|entries|] == entries;
    ScanEnds(entries, dbFree, eligible, sawOther);
    if eligible != [] {
      if sawOther {
        return Full;
      }
      return Narrow(TestNames(Sorted(eligible)));
    }
    return NoBackend;
  }

  lemma ScanEnds(entries: seq<Entry>, dbFree: set<string>, eligible: seq<string>, sawOther: bool)
    requires entries != [] && Scanned(multiset(entries), dbFree, eligible, sawOther)
    ensures var m := multiset(entries);
            IsMode(m, dbFree, if eligible == [] then NoBackend else if sawOther then Full
                              else Narrow(TestNames(Sorted(eligible))))
  {
    hide AUDITED, Unsafe;
    var m := multiset(entries);
    assert entries[0] in m;
    SortedFacts(eligible);
    if eligible != [] {
      assert eligible[0] in Items(eligible);
      assert ListsAudited(Sorted(eligible), m);
    } else {
      assert forall p :: p !in Items(eligible);
      forall e | e in m ensures e.path !in AUDITED {
      }
    }
  }

  // ------------------------------------------------------------------
  // What the answer depends on
  // ------------------------------------------------------------------

  /** One answer per collection of changes: order never matters. */
  lemma ModeIsUnique(m: multiset<Entry>, dbFree: set<string>, r: Mode, s: Mode)
    requires IsMode(m, dbFree, r) && IsMode(m, dbFree, s)
    ensures r == s
  {
    hide AUDITED, Unsafe, TestNames;
    if r.Narrow? && s.Narrow? {
      var p :| Increasing(p) && ListsAudited(p, m) && r.tests == TestNames(p);
      var q :| Increasing(q) && ListsAudited(q, m) && s.tests == TestNames(q);
      assert forall x :: x in Items(p) <==> x in Items(q);
      assert Items(p) == Items(q);
      IncreasingIsUnique(p, q);
    }
  }

  /** A nonempty change that needs the full run still needs it with more entries;
      a change that needs no backend run never becomes narrow. */
  lemma MoreEntries(m: multiset<Entry>, more: multiset<Entry>, dbFree: set<string>, r: Mode, s: Mode)
    requires IsMode(m, dbFree, r) && IsMode(m + more, dbFree, s) && m != multiset{}
    ensures r.Full? ==> s.Full?
    ensures r.NoBackend? ==> !s.Narrow?
  {
    hide AUDITED, Unsafe, Harmful;
    if Unsafe(m, dbFree) {
      UnsafeGrows(m, more, dbFree);
    }
    assert forall e :: e in m ==> e in m + more;
    if r.NoBackend? {
      var e :| e in m;
      assert e.path !in AUDITED;
    }
  }

  lemma NoEmptyAudited()
    ensures "" !in AUDITED
  {
    assert |AUDITED[0]| > 0 && |AUDITED[1]| > 0 && |AUDITED[2]| > 0;
  }

  lemma ModifiedIsHarmless(e: Entry, dbFree: set<string>)
    requires e.path in AUDITED && e.status == "M" && e.path in dbFree
    ensures !Harmful(e, dbFree)
  {
    NoEmptyAudited();
    hide AUDITED, TouchesBackend;
  }

  lemma OneIsSafe(e: Entry, dbFree: set<string>)
    requires e.path in AUDITED && !Harmful(e, dbFree)
    ensures var m := multiset{e}; !Unsafe(m, dbFree) && TouchesAudited(m) && !TouchesOther(m)
  {
    hide AUDITED, Harmful;
    var m := multiset{e};
    assert e in m;
  }

  lemma OneIncreasing(path: string)
    ensures Increasing([path])
  {
  }

  /** One modified audited file, still free of database use, is a narrow change. */
  lemma OneAudited(e: Entry, dbFree: set<string>)
    requires e.path in AUDITED && e.status == "M" && e.path in dbFree
    ensures IsMode(multiset{e}, dbFree, Narrow(TestNames([e.path])))
  {
    ModifiedIsHarmless(e, dbFree);
    OneIsSafe(e, dbFree);
    OnePath(e);
    OneIncreasing(e.path);
    hide AUDITED, TestNames, Harmful, ListsAudited, Unsafe, TouchesAudited, TouchesOther, Increasing;
    var paths := [e.path];
    assert Increasing(paths) && ListsAudited(paths, multiset{e});
  }

  /** An entry outside the audited, database and backend files is no concern of the backend. */
  lemma OneUnrelated(e: Entry, dbFree: set<string>)
    requires e.path !in AUDITED && !Harmful(e, dbFree)
    ensures IsMode(multiset{e}, dbFree, NoBackend)
  {
    hide AUDITED, Harmful;
    forall f | f in multiset{e} ensures f == e && multiset{e}[f] == 1 {
    }
    assert e in multiset{e};
  }

  const README_CHANGE := Entry("M", "README.md")

  lemma ReadmeIsUnrelated(dbFree: set<string>)
    ensures README_CHANGE.path !in AUDITED && !Harmful(README_CHANGE, dbFree)
  {
    var p := README_CHANGE.path;
    assert |p| == 9 && p[0] == 'R';
    assert |AUDITED[0]| > 9 && |AUDITED[1]| > 9 && |AUDITED[2]| > 9;
    assert |BACKEND_FILES[0]| > 9 && |BACKEND_FILES[1]| > 9 && |BACKEND_FILES[2]| > 9 && |BACKEND_FILES[3]| > 9;
    ReadmeIsNoApiFile();
    hide PG_ONLY, PG_WORKFLOW;
    assert p !in AUDITED && p !in BACKEND_FILES;
  }

  lemma ReadmeIsNoApiFile()
    ensures !StartsWith("README.md", "apps/api/")
  {
    assert "README.md"[..9][0] == 'R' && "apps/api/"[0] == 'a';
  }

  /** The full answer survives every addition exactly when the list is not empty;
      an empty list loses it to one unrelated entry already. */
  lemma FullIsKeptIff(m: multiset<Entry>, dbFree: set<string>)
    requires IsMode(m, dbFree, Full)
    ensures (forall more, s :: IsMode(m + more, dbFree, s) ==> s == Full) <==> m != multiset{}
  {
    ReadmeIsUnrelated(dbFree);
    OneUnrelated(README_CHANGE, dbFree);
    hide IsMode;
    if m != multiset{} {
      forall more, s | IsMode(m + more, dbFree, s) ensures s == Full {
        MoreEntries(m, more, dbFree, Full, s);
      }
    } else {
      assert m + multiset{README_CHANGE} == multiset{README_CHANGE};
      assert IsMode(m + multiset{README_CHANGE}, dbFree, NoBackend);
    }
  }

  /** An empty list can even turn narrow: by one modified audited file. */
  lemma EmptyFullIsNotKept(path: string, dbFree: set<string>)
    requires path in AUDITED && path in dbFree
    ensures IsMode(multiset{}, dbFree, Full)
    ensures IsMode(multiset{} + multiset{Entry("M", path)}, dbFree, Narrow(TestNames([path])))
  {
    hide AUDITED, TestNames, Harmful, ListsAudited, Unsafe;
    OneAudited(Entry("M", path), dbFree);
    assert multiset{} + multiset{Entry("M", path)} == multiset{Entry("M", path)};
  }

  lemma OnePath(e: Entry)
    requires e.path in AUDITED
    ensures ListsAudited([e.path], multiset{e})
  {
    hide AUDITED;
    var m := multiset{e};
    assert [e.path][0] in Items([e.path]);
    assert e in m && forall f :: f in m ==> f == e;
  }

  // ------------------------------------------------------------------
  // The browser gate's admission
  // ------------------------------------------------------------------

  function Paths(entries: seq<Entry>): (r: seq<string>)
    ensures |r| == |entries| && forall i :: 0 <= i < |r| ==> r[i] == entries[i].path
  {
    seq(|entries|, i requires 0 <= i < |entries| => entries[i].path)
  }

  /** Only modified, registered, database-free files, each once. */
  predicate OnlyModified(entries: seq<Entry>, registry: seq<string>, dbFree: set<string>) {
    && entries != [] && Distinct(Paths(entries))
    && forall i :: 0 <= i < |entries| ==>
         entries[i].status == "M" && entries[i].path in registry && entries[i].path in dbFree
  }

  /** Distinct registered paths are at most as many as the registry. */
  lemma AtMostRegistry(paths: seq<string>, registry: seq<string>)
    requires Distinct(paths) && forall i :: 0 <= i < |paths| ==> paths[i] in registry
    ensures |paths| <= |Items(registry)|
  {
    ItemsCount(paths);
    Subset(Items(paths), Items(registry));
  }

  lemma {:induction false} Subset(a: set<string>, b: set<string>)
    requires a <= b
    ensures |a| <= |b|
  {
    if x :| x in a {
      Subset(a - {x}, b - {x});
    } else {
      assert a == {};
    }
  }

  /** The admission; its length test never decides. */
  method Eligible(entries: seq<Entry>, registry: seq<string>, dbFree: set<string>) returns (r: bool)
    ensures r <==> OnlyModified(entries, registry, dbFree)
  {
    hide Distinct, Items;
    if entries == [] || |entries| > |Items(registry)| {
      if OnlyModified(entries, registry, dbFree) {
        AtMostRegistry(Paths(entries), registry);
      }
      return false;
    }
    var seen: set<string> := {};
    NothingSeen(Paths(entries));
    for i := 0 to |entries|
      invariant seen == Items(Paths(entries)[..i])
      invariant Distinct(Paths(entries)[..i])
      invariant forall k :: 0 <= k < i ==>
                  entries[k].status == "M" && entries[k].path in registry && entries[k].path in dbFree
    {
      var e := entries[i];
      PathPush(Paths(entries), i);
      if e.status != "M" || e.path !in registry || e.path in seen || e.path !in dbFree {
        return false;
      }
      seen := seen + {e.path};
    }
    assert Paths(entries)[..|entries|] == Paths(entries);
    return true;
  }

  lemma NothingSeen(paths: seq<string>)
    ensures Items(paths[..0]) == {} && Distinct(paths[..0])
  {
  }

  lemma PathPush(paths: seq<string>, i: nat)
    requires i < |paths|
    ensures Items(paths[..i + 1]) == Items(paths[..i]) + {paths[i]}
    ensures paths[i] in Items(paths[..i]) ==> !Distinct(paths)
    ensures paths[i] !in Items(paths[..i]) && Distinct(paths[..i]) ==> Distinct(paths[..i + 1])
  {
    assert paths[..i + 1] == paths[..i] + [paths[i]];
    if paths[i] in Items(paths[..i]) {
      var k :| 0 <= k < i && paths[..i][k] == paths[i];
      assert paths[k] == paths[i];
    }
  }

  /** An entry that occurs twice occupies two places. */
  lemma DoubleIsRepeat(entries: seq<Entry>)
    ensures Distinct(entries) <==> forall e :: multiset(entries)[e] <= 1
  {
    if Distinct(entries) {
      forall e ensures multiset(entries)[e] <= 1 {
        DistinctMultiplicity(entries, e);
      }
    } else {
      var i, j :| 0 <= i < j < |entries| && entries[i] == entries[j];
      SplitEntries(entries, j);
      assert entries[..j][i] == entries[j];
      assert entries[j] in multiset(entries[..j]);
      assert multiset(entries)[entries[j]] >= 2;
    }
  }

  /** Admission by a registry inside the audited one implies the narrow run; with
      equal registries the two decisions are the same. */
  lemma NarrowIffEligible(entries: seq<Entry>, registry: seq<string>, dbFree: set<string>, r: Mode)
    requires IsMode(multiset(entries), dbFree, r)
    requires Items(registry) <= Items(AUDITED)
    ensures OnlyModified(entries, registry, dbFree) ==> r.Narrow?
    ensures Items(registry) == Items(AUDITED) ==> (r.Narrow? <==> OnlyModified(entries, registry, dbFree))
  {
    hide AUDITED, TouchesBackend, TestNames;
    var m := multiset(entries);
    forall x ensures x in AUDITED <==> x in Items(AUDITED) {
    }
    forall x ensures x in registry <==> x in Items(registry) {
    }
    DoubleIsRepeat(entries);
    if OnlyModified(entries, registry, dbFree) {
      AdmittedIsSafe(entries, registry, dbFree);
    }
    if r.Narrow? && Items(registry) == Items(AUDITED) {
      NarrowIsAdmitted(entries, registry, dbFree);
    }
  }

  lemma AdmittedIsSafe(entries: seq<Entry>, registry: seq<string>, dbFree: set<string>)
    requires OnlyModified(entries, registry, dbFree)
    requires forall x :: x in registry ==> x in AUDITED
    ensures var m := multiset(entries); m != multiset{} && !Unsafe(m, dbFree) && TouchesAudited(m) && !TouchesOther(m)
  {
    NoEmptyAudited();
    hide AUDITED;
    var m := multiset(entries);
    assert entries[0] in m;
    assert Distinct(entries) by {
      forall i, j | 0 <= i < j < |entries| ensures entries[i] != entries[j] {
        assert Paths(entries)[i] != Paths(entries)[j];
      }
    }
    DoubleIsRepeat(entries);
    forall e | e in m ensures e.path in AUDITED && e.status == "M" && e.path in dbFree && m[e] <= 1 {
      assert e in entries;
    }
  }

  lemma NarrowIsAdmitted(entries: seq<Entry>, registry: seq<string>, dbFree: set<string>)
    requires forall x :: x in registry <==> x in AUDITED
    requires var m := multiset(entries); !Unsafe(m, dbFree) && TouchesAudited(m) && !TouchesOther(m)
    ensures OnlyModified(entries, registry, dbFree)
  {
    hide AUDITED, TouchesBackend;
    var m := multiset(entries);
    forall i | 0 <= i < |entries|
      ensures entries[i].status == "M" && entries[i].path in registry && entries[i].path in dbFree
    {
      assert entries[i] in m;
    }
    forall e ensures m[e] <= 1 {
      if e in m { assert e.path in AUDITED; }
    }
    DoubleIsRepeat(entries);
    forall i, j | 0 <= i < j < |entries| ensures Paths(entries)[i] != Paths(entries)[j] {
      assert entries[i] != entries[j];
    }
  }

  lemma RegistriesAgree()
    ensures Items(ELIGIBLE) == Items(AUDITED)
  {
  }
}

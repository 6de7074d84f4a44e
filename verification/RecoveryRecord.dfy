/** The recovery record's own walk over an evidence archive, and its agreement
    with extraction. */
module RecoveryRecord {
  import opened Outcomes
  import opened PyText
  import opened ArchiveNames
  import opened Tally
  import opened EvidenceArchive

  const MAX_MEMBERS := 50000
  const MAX_DECLARED_BYTES := 549755813888

  datatype Identity = Identity(entryCount: nat, declaredBytes: int)

  predicate IsRootEntry(m: Member) {
    PosixText(m.name) == "."
  }

  /** The tests on a single entry, in any archive. */
  predicate Admissible(m: Member) {
    && !BadStart(m.name) && ".." !in SplitOn(RStripSlash(m.name), '/')
    && (if IsRootEntry(m) then m.kind.Directory?
        else !m.kind.Special? && (m.kind.Regular? ==> m.size >= 0))
  }

  function Listed(ms: seq<Member>): (names: seq<string>)
  {
    if ms == [] then []
    else
      var n := |ms| - 1;
      Listed(ms[..n]) + if IsRootEntry(ms[n]) then [] else [PosixText(ms[n].name)]
  }

  function DeclaredSize(m: Member): int {
    if m.kind.Regular? && !IsRootEntry(m) then m.size else 0
  }

  predicate AllAdmissible(ms: seq<Member>) {
    forall i :: 0 <= i < |ms| ==> Admissible(ms[i])
  }

  ghost predicate Identifiable(ms: seq<Member>) {
    && |ms| <= 50000 && AllAdmissible(ms)
    && Distinct(Listed(ms)) && Listed(ms) != []
    && Sum(ms, DeclaredSize) <= 549755813888
  }

  lemma {:induction false} ListedGrows(ms: seq<Member>, k: nat)
    requires k <= |ms|
    ensures Listed(ms[..k]) <= Listed(ms)
  {
    hide IsRootEntry, PosixText;
    if k == |ms| {
      assert ms[..k] == ms;
    } else {
      assert ms[..|ms| - 1][..k] == ms[..k];
      ListedGrows(ms[..|ms| - 1], k);
    }
  }

  lemma {:induction false} DeclaredGrows(ms: seq<Member>, k: nat)
    requires k <= |ms| && forall i :: k <= i < |ms| ==> DeclaredSize(ms[i]) >= 0
    ensures Sum(ms[..k], DeclaredSize) <= Sum(ms, DeclaredSize)
  {
    hide DeclaredSize;
    if k == |ms| {
      assert ms[..k] == ms;
    } else {
      var n := |ms| - 1;
      assert ms[..n][..k] == ms[..k];
      DeclaredGrows(ms[..n], k);
    }
  }

  lemma Step(ms: seq<Member>, i: nat)
    requires i < |ms|
    ensures Listed(ms[..i + 1])
         == if IsRootEntry(ms[i]) then Listed(ms[..i]) else Listed(ms[..i]) + [PosixText(ms[i].name)]
    ensures Sum(ms[..i + 1], DeclaredSize) == Sum(ms[..i], DeclaredSize) + DeclaredSize(ms[i])
  {
    hide IsRootEntry, PosixText;
    assert ms[..i + 1][..i] == ms[..i];
  }

  /** Any one of the refusals at entry `i` rules the whole archive out. */
  lemma Unidentifiable(ms: seq<Member>, i: nat)
    requires i < |ms|
    requires || i >= MAX_MEMBERS
             || !Admissible(ms[i])
             || !Distinct(Listed(ms[..i + 1]))
             || Sum(ms[..i + 1], DeclaredSize) > MAX_DECLARED_BYTES
    ensures !Identifiable(ms)
  {
    if Identifiable(ms) {
      AdmissibleSizes(ms);
      hide IsRootEntry, PosixText, SplitOn, BadStart, Admissible, DeclaredSize, Distinct, Listed, Sum;
      ListedGrows(ms, i + 1);
      DistinctPrefix(Listed(ms[..i + 1]), Listed(ms));
      DeclaredGrows(ms, i + 1);
      assert false;
    }
  }

  lemma AdmissibleSizes(ms: seq<Member>)
    requires AllAdmissible(ms)
    ensures forall i :: 0 <= i < |ms| ==> DeclaredSize(ms[i]) >= 0
  {
    hide PosixText, SplitOn, BadStart;
    forall i | 0 <= i < |ms| ensures DeclaredSize(ms[i]) >= 0 {
      assert Admissible(ms[i]);
    }
  }

  lemma DistinctPrefix(s: seq<string>, t: seq<string>)
    requires s <= t && Distinct(t)
    ensures Distinct(s)
  {
    forall i, j | 0 <= i < j < |s| ensures s[i] != s[j] {
      assert s[i] == t[i] && s[j] == t[j];
    }
  }

  lemma DistinctPush(s: seq<string>, x: string)
    requires Distinct(s)
    ensures Distinct(s + [x]) <==> x !in s
  {
    if x in s {
      var i :| 0 <= i < |s| && s[i] == x;
      assert (s + [x])[i] == (s + [x])[|s|];
    }
  }

  lemma AllIdentified(ms: seq<Member>)
    requires |ms| <= MAX_MEMBERS && forall k :: 0 <= k < |ms| ==> Admissible(ms[k])
    requires Distinct(Listed(ms)) && Sum(ms, DeclaredSize) <= MAX_DECLARED_BYTES
    ensures Identifiable(ms) <==> Listed(ms) != []
  {
  }

  method EvidenceIdentity(ms: seq<Member>) returns (r: Result<Identity>)
    ensures r.Ok? <==> Identifiable(ms)
    ensures r.Ok? ==> r.value == Identity(|Listed(ms)|, Sum(ms, DeclaredSize))
  {
    hide Identifiable, Admissible, PosixText, SplitOn, BadStart, Listed, Sum, Distinct;
    var seen: set<string> := {};
    var members, declared := 0, 0;
    var i := 0;
    Start();
    assert ms[..0] == [];
    while i < |ms|
      invariant 0 <= i <= |ms| && members == i <= MAX_MEMBERS
      invariant forall k :: 0 <= k < i ==> Admissible(ms[k])
      invariant forall name :: name in seen <==> name in Listed(ms[..i])
      invariant |seen| == |Listed(ms[..i])| && Distinct(Listed(ms[..i]))
      invariant declared == Sum(ms[..i], DeclaredSize) <= MAX_DECLARED_BYTES
    {
      var entry := ms[i];
      Step(ms, i);
      AdmissibleCases(entry);
      members := members + 1;
      if members > MAX_MEMBERS || BadStart(entry.name) || ".." in SplitOn(RStripSlash(entry.name), '/') {
        Unidentifiable(ms, i);
        return Refused;
      }
      var normalized := PosixText(entry.name);
      if normalized == "." {
        if !entry.kind.Directory? {
          Unidentifiable(ms, i);
          return Refused;
        }
      } else {
        DistinctPush(Listed(ms[..i]), normalized);
        if normalized in seen || entry.kind.Special? || (entry.kind.Regular? && entry.size < 0) {
          Unidentifiable(ms, i);
          return Refused;
        }
        seen := seen + {normalized};
        if entry.kind.Regular? {
          declared := declared + entry.size;
        }
        if declared > MAX_DECLARED_BYTES {
          Unidentifiable(ms, i);
          return Refused;
        }
      }
      i := i + 1;
    }
    assert ms[..i] == ms;
    AllIdentified(ms);
    if seen == {} {
      return Refused;
    }
    return Ok(Identity(|seen|, declared));
  }

  lemma Start()
    ensures Listed([]) == [] && Distinct(Listed([])) && Sum([], DeclaredSize) == 0
  {
  }

  lemma AdmissibleCases(m: Member)
    ensures Admissible(m)
            <==> && !BadStart(m.name) && ".." !in SplitOn(RStripSlash(m.name), '/')
                 && (PosixText(m.name) == "." ==> m.kind.Directory?)
                 && (PosixText(m.name) != "." ==> !m.kind.Special? && (m.kind.Regular? ==> m.size >= 0))
  {
  }

  // ------------------------------------------------------------------
  // Agreement with extraction
  // ------------------------------------------------------------------

  predicate DistinctPaths(ms: seq<Member>) {
    forall i, j :: 0 <= i < j < |ms| ==> PathOf(ms[i]) != PathOf(ms[j])
  }

  lemma UsableIsAdmissible(m: Member)
    requires Usable(m)
    ensures Admissible(m) && !IsRootEntry(m) && DeclaredSize(m) == FileSize(m)
  {
    NormalNameIsPath(m.name);
  }

  lemma {:induction false} NothingSkipped(ms: seq<Member>)
    requires forall i :: 0 <= i < |ms| ==> !IsRootEntry(ms[i]) && DeclaredSize(ms[i]) == FileSize(ms[i])
    ensures |Listed(ms)| == |ms| && forall i :: 0 <= i < |ms| ==> Listed(ms)[i] == PosixText(ms[i].name)
    ensures Sum(ms, DeclaredSize) == Sum(ms, FileSize)
  {
    hide PosixText, IsRootEntry, DeclaredSize, FileSize;
    if ms == [] {
    } else {
      var n := |ms| - 1;
      var front := ms[..n];
      NothingSkipped(front);
      assert Listed(ms) == Listed(front) + [PosixText(ms[n].name)];
    }
  }

  lemma UsableAreListed(ms: seq<Member>)
    requires AllUsable(ms)
    ensures |Listed(ms)| == |ms| && forall i :: 0 <= i < |ms| ==> Listed(ms)[i] == PosixText(ms[i].name)
    ensures Sum(ms, DeclaredSize) == Sum(ms, FileSize)
    ensures AllAdmissible(ms)
  {
    forall i | 0 <= i < |ms|
      ensures Admissible(ms[i]) && !IsRootEntry(ms[i]) && DeclaredSize(ms[i]) == FileSize(ms[i])
    {
      assert Usable(ms[i]);
      UsableIsAdmissible(ms[i]);
    }
    NothingSkipped(ms);
  }

  lemma DistinctNames(ms: seq<Member>)
    requires AllUsable(ms)
    ensures Distinct(Listed(ms)) <==> DistinctPaths(ms)
  {
    UsableAreListed(ms);
    forall i, j | 0 <= i < j < |ms|
      ensures PathOf(ms[i]) == PathOf(ms[j]) <==> Listed(ms)[i] == Listed(ms)[j]
    {
      assert Usable(ms[i]) && Usable(ms[j]);
      NormalNameInjective(ms[i].name, ms[j].name);
    }
  }

  /** Every archive that extracts is also recordable, provided it is not empty or
      too long and lists no path twice; and then the declared byte total is what
      extraction wrote and every member is one recorded entry. */
  lemma WalksAgree(ms: seq<Member>)
    requires Extractable(ms)
    ensures Identifiable(ms) <==> ms != [] && |ms| <= MAX_MEMBERS && DistinctPaths(ms)
    ensures Sum(ms, DeclaredSize) == RegularBytes(ms) && |Listed(ms)| == |ms|
  {
    UsableAreListed(ms);
    DistinctNames(ms);
    hide AllUsable, AllAdmissible, Distinct, DistinctPaths, Compatible, Listed, Sum, Count;
  }

  /** A recordable archive extracts exactly when every member is usable, no file
      stands in another's way and the restore limits hold; its names are already
      known to be distinct. */
  lemma RecordedExtracts(ms: seq<Member>)
    requires Identifiable(ms)
    ensures Extractable(ms)
            <==> AllUsable(ms) && ClearPaths(ms) && RegularCount(ms) <= MAX_FILES && RegularBytes(ms) <= MAX_BYTES
  {
    if AllUsable(ms) {
      DistinctNames(ms);
    }
    hide AllUsable, AllAdmissible, Listed, Sum, Count, PathOf, InTheWay;
  }

  function Folder(name: string): Member {
    Member(name, Directory, 0, None)
  }

  /** A directory listed twice extracts, but is not recorded, whatever its name. */
  lemma TwiceListedDirectory(name: string)
    requires SafeRelative(name).Ok?
    ensures Extractable([Folder(name), Folder(name)]) && !Identifiable([Folder(name), Folder(name)])
  {
    hide SafeRelative;
    var ms := [Folder(name), Folder(name)];
    TotalsPush([], Folder(name));
    TotalsPush([Folder(name)], Folder(name));
    assert [] + [Folder(name)] == [Folder(name)] && [Folder(name)] + [Folder(name)] == ms;
    assert Usable(ms[0]) && !InTheWay(ms[0], ms[1]);
    assert RegularCount(ms) == 0 && RegularBytes(ms) == 0;
    assert PathOf(ms[0]) == PathOf(ms[1]);
    WalksAgree(ms);
  }

  /** A plain name prefixed with a dot segment is recorded, but never extracts. */
  lemma DotPrefixedMember()
    ensures var ms := [Member("./a", Regular, 0, Some([]))];
            Identifiable(ms) && !Extractable(ms)
  {
    var m := Member("./a", Regular, 0, Some([]));
    DotPrefixRefused("a");
    assert "./" + "a" == m.name;
    assert !Usable(m);
    DotPrefixText();
    var ms := [m];
    assert ms[..0] == [] && !Usable(ms[0]);
  }

  lemma DotPrefixText()
    ensures PosixText("./a") == "a" && ".." !in SplitOn(RStripSlash("./a"), '/') && !BadStart("./a")
  {
    SplitAtFirst(".", '/', "a");
    SplitWhole("a", '/');
    assert "." + ['/'] + "a" == "./a";
    assert SplitOn("./a", '/') == [".", "a"];
    assert [".", "a"][1..] == ["a"];
  }

  /** Any archive with a dot-prefixed name is refused by extraction. */
  lemma DotPrefixNeverExtracts(ms: seq<Member>, i: nat)
    requires i < |ms| && "./" <= ms[i].name
    ensures !Extractable(ms)
  {
    DotPrefixRefused(ms[i].name[2..]);
    assert "./" + ms[i].name[2..] == ms[i].name;
    hide SafeRelative;
    assert !Usable(ms[i]);
  }

  /** Both walks over one archive: the bytes written equal the bytes declared. */
  method ExtractThenRecord(ms: seq<Member>, dir: RestoreDir)
    returns (extracted: Result<nat>, identity: Result<Identity>)
    requires dir.nodes == map[] && dir.log == []
    modifies dir
    ensures extracted.Ok? && identity.Ok? ==>
              && WrittenBytes(dir.log) == identity.value.declaredBytes
              && |dir.log| <= identity.value.entryCount == |ms|
  {
    var restored;
    extracted, restored := Extract(ms, dir);
    identity := EvidenceIdentity(ms);
    if extracted.Ok? && identity.Ok? {
      WalksAgree(ms);
    }
  }
}

/** Extraction of a synthetic evidence archive into a new directory, reconciled
    with restored document rows. */
module EvidenceArchive {
  import opened Outcomes
  import opened PyText
  import opened ArchiveNames
  import opened Tally

  const MAX_FILES := 5000
  const MAX_BYTES := 2147483648

  type Bytes = seq<bv8>

  /** SHA-256 as lower-case hexadecimal text, uninterpreted. */
  type Digest = Bytes -> string

  datatype Kind = Directory | Regular | Special

  /** One archive entry; `content` is None when the reader hands out no stream. */
  datatype Member = Member(name: string, kind: Kind, size: int, content: Option<Bytes>)

  datatype Document = Document(key: string, sha256: string, size: int)

  datatype Reconciled = Reconciled(filesRestored: nat, documentsMatched: nat)

  datatype Node = Dir | File(data: Bytes) | Symlink(target: string)

  // ------------------------------------------------------------------
  // What an archive asks for
  // ------------------------------------------------------------------

  /** The member stream never yields more than the declared size. */
  function Delivered(m: Member): (data: Bytes)
    ensures m.size >= 0 ==> |data| <= m.size
    ensures m.content.Some? ==> data <= m.content.value && (|data| == m.size || data == m.content.value)
    ensures m.content.None? ==> data == []
  {
    if m.content.None? then []
    else if |m.content.value| <= m.size || m.size < 0 then m.content.value
    else m.content.value[..m.size]
  }

  predicate Usable(m: Member) {
    && SafeRelative(m.name).Ok?
    && !m.kind.Special?
    && (m.kind.Regular? ==> Whole(m))
  }

  /** The stream of the member holds as many bytes as declared. */
  predicate Whole(m: Member) {
    m.content.Some? && 0 <= m.size <= |m.content.value|
  }

  function PathOf(m: Member): Path {
    if SafeRelative(m.name).Ok? then SafeRelative(m.name).value else []
  }

  /** The directory that must exist for the member. */
  function DirPart(m: Member): (d: Path)
  {
    var p := PathOf(m);
    if m.kind.Regular? && p != [] then p[..|p| - 1] else p
  }

  predicate AllUsable(ms: seq<Member>) {
    forall i :: 0 <= i < |ms| ==> Usable(ms[i])
  }

  predicate DistinctFiles(ms: seq<Member>) {
    forall i, j :: 0 <= i < |ms| && 0 <= j < |ms| && i != j && ms[i].kind.Regular? && ms[j].kind.Regular?
      ==> PathOf(ms[i]) != PathOf(ms[j])
  }

  /** The file `f` stands on the way to `m`. */
  predicate InTheWay(f: Member, m: Member) {
    f.kind.Regular? && PathOf(f) <= DirPart(m)
  }

  predicate ClearPaths(ms: seq<Member>) {
    forall i, j :: 0 <= i < |ms| && 0 <= j < |ms| ==> !InTheWay(ms[i], ms[j])
  }

  /** No file is written twice and no file stands where a directory is needed. */
  predicate Compatible(ms: seq<Member>) {
    DistinctFiles(ms) && ClearPaths(ms)
  }

  predicate IsRegular(m: Member) {
    m.kind.Regular?
  }

  function FileSize(m: Member): int {
    if m.kind.Regular? then m.size else 0
  }

  function RegularCount(ms: seq<Member>): nat {
    Count(ms, IsRegular)
  }

  function RegularBytes(ms: seq<Member>): int {
    Sum(ms, FileSize)
  }

  /** Whether an archive can be extracted: no condition mentions member order. */
  predicate Extractable(ms: seq<Member>) {
    && AllUsable(ms) && Compatible(ms)
    && RegularCount(ms) <= 5000 && RegularBytes(ms) <= 2147483648
  }

  // ------------------------------------------------------------------
  // The tree an archive describes
  // ------------------------------------------------------------------

  predicate NeedsDir(ms: seq<Member>, p: Path) {
    p != [] && exists i :: 0 <= i < |ms| && p <= DirPart(ms[i])
  }

  predicate HasFile(ms: seq<Member>, p: Path) {
    exists i :: 0 <= i < |ms| && ms[i].kind.Regular? && PathOf(ms[i]) == p
  }

  function FileData(ms: seq<Member>, p: Path): Bytes
    requires HasFile(ms, p)
  {
    var n := |ms| - 1;
    if ms[n].kind.Regular? && PathOf(ms[n]) == p then Delivered(ms[n]) else FileData(ms[..n], p)
  }

  type Nodes = map<Path, Node>

  /** The tree holds exactly the archive: its files with their delivered bytes,
      and the directories its members need. */
  ghost predicate TreeIs(nodes: Nodes, ms: seq<Member>) {
    && (forall p :: p in nodes <==> NeedsDir(ms, p) || HasFile(ms, p))
    && (forall p :: p in nodes ==> nodes[p] == if HasFile(ms, p) then File(FileData(ms, p)) else Dir)
  }

  lemma NeedsDirStep(ms: seq<Member>, m: Member, p: Path)
    ensures NeedsDir(ms + [m], p) <==> NeedsDir(ms, p) || (p != [] && p <= DirPart(m))
    ensures HasFile(ms + [m], p) <==> HasFile(ms, p) || (m.kind.Regular? && PathOf(m) == p)
  {
    var all := ms + [m];
    assert all[|ms|] == m;
    if NeedsDir(ms, p) {
      var i :| 0 <= i < |ms| && p <= DirPart(ms[i]);
      assert all[i] == ms[i];
    }
    if HasFile(ms, p) {
      var i :| 0 <= i < |ms| && ms[i].kind.Regular? && PathOf(ms[i]) == p;
      assert all[i] == ms[i];
    }
  }

  /** The bytes at a path are those of the one member that is written there. */
  lemma {:induction false} FileDataIs(ms: seq<Member>, i: nat)
    requires i < |ms| && ms[i].kind.Regular? && DistinctFiles(ms)
    ensures HasFile(ms, PathOf(ms[i])) && FileData(ms, PathOf(ms[i])) == Delivered(ms[i])
  {
    hide PathOf, Delivered;
    var n := |ms| - 1;
    var p := PathOf(ms[i]);
    assert HasFile(ms, p);
    if i == n {
    } else {
      var front := ms[..n];
      assert front[i] == ms[i] && !(ms[n].kind.Regular? && PathOf(ms[n]) == p);
      FileDataIs(front, i);
    }
  }

  lemma ExtractablePrefix(ms: seq<Member>, k: nat)
    requires k <= |ms| && Extractable(ms)
    ensures Extractable(ms[..k])
  {
    TotalsGrow(ms, k);
  }

  lemma {:induction false} TotalsGrow(ms: seq<Member>, k: nat)
    requires k <= |ms| && forall i :: k <= i < |ms| ==> ms[i].kind.Regular? ==> ms[i].size >= 0
    ensures RegularCount(ms[..k]) <= RegularCount(ms) && RegularBytes(ms[..k]) <= RegularBytes(ms)
  {
    if k == |ms| {
      assert ms[..k] == ms;
    } else {
      var n := |ms| - 1;
      assert ms[..n][..k] == ms[..k];
      TotalsGrow(ms[..n], k);
    }
  }

  // ------------------------------------------------------------------
  // The restore directory
  // ------------------------------------------------------------------

  datatype Write = Write(path: Path, data: Bytes)

  function WrittenBytes(log: seq<Write>): nat {
    if log == [] then 0 else WrittenBytes(log[..|log| - 1]) + |log[|log| - 1].data|
  }

  ghost predicate DistinctWrites(log: seq<Write>) {
    forall i, j :: 0 <= i < j < |log| ==> log[i].path != log[j].path
  }

  predicate Within(q: Path, p: Path) {
    q <= p
  }

  /** Some directory on the way to `p`, or `p` itself, is not a directory. */
  predicate Blocked(nodes: Nodes, p: Path) {
    exists k :: 0 < k <= |p| && p[..k] in nodes && !nodes[p[..k]].Dir?
  }

  function WithDirs(nodes: Nodes, p: Path): (r: Nodes)
    ensures forall q :: q in r <==> q in nodes || (q != [] && Within(q, p))
    ensures forall q :: q in r ==> r[q] == if q in nodes then nodes[q] else Dir
  {
    if p == [] then nodes
    else
      var up := WithDirs(nodes, p[..|p| - 1]);
      assert forall q: Path :: Within(q, p) <==> q == p || Within(q, p[..|p| - 1]);
      if p in up then up else up[p := Dir]
  }

  class RestoreDir {
    const isDirectory: bool
    var nodes: Nodes
    ghost var log: seq<Write>   // exclusive creations, in order

    /** True of every state the directory passes through. */
    ghost predicate Safe()
      reads this
    {
      && (forall p :: p in nodes ==> PlainPath(p) && !nodes[p].Symlink?)
      && DistinctWrites(log)
      && (forall i :: 0 <= i < |log| ==> log[i].path in nodes && nodes[log[i].path] == File(log[i].data))
      && (forall p :: p in nodes && nodes[p].File? ==> exists i :: 0 <= i < |log| && log[i].path == p)
    }

    constructor (isDirectory: bool, nodes: Nodes)
      ensures this.isDirectory == isDirectory && this.nodes == nodes && log == []
    {
      this.isDirectory := isDirectory;
      this.nodes := nodes;
      log := [];
    }

    /** `mkdir(parents=True, exist_ok=True)`. */
    method MakeDirs(p: Path) returns (ok: bool)
      requires Safe() && forall i :: 0 <= i < |p| ==> PlainPart(p[i])
      modifies this
      ensures Safe() && log == old(log)
      ensures ok <==> !Blocked(old(nodes), p)
      ensures nodes == if ok then WithDirs(old(nodes), p) else old(nodes)
    {
      if Blocked(nodes, p) {
        return false;
      }
      forall q | q != [] && q <= p ensures PlainPath(q) {
        assert forall i :: 0 <= i < |q| ==> q[i] == p[i];
      }
      nodes := WithDirs(nodes, p);
      return true;
    }

    /** Exclusive creation followed by the copy. */
    method CreateFile(p: Path, data: Bytes)
      requires Safe() && PlainPath(p) && p !in nodes
      modifies this
      ensures Safe() && log == old(log) + [Write(p, data)]
      ensures nodes == old(nodes)[p := File(data)]
    {
      nodes := nodes[p := File(data)];
      log := log + [Write(p, data)];
      assert log[|log| - 1].path == p;
      forall q | q in nodes && nodes[q].File? ensures exists i :: 0 <= i < |log| && log[i].path == q {
        if q != p {
          var i :| 0 <= i < |old(log)| && old(log)[i].path == q;
          assert log[i].path == q;
        }
      }
    }
  }

  // ------------------------------------------------------------------
  // One member at a time
  // ------------------------------------------------------------------

  lemma DirectoryStep(nodes: Nodes, ms: seq<Member>, m: Member)
    requires TreeIs(nodes, ms) && Usable(m) && m.kind.Directory? && !Blocked(nodes, PathOf(m))
    ensures TreeIs(WithDirs(nodes, PathOf(m)), ms + [m])
  {
    var all := ms + [m];
    var next := WithDirs(nodes, PathOf(m));
    assert all[..|all| - 1] == ms;
    forall p ensures p in next <==> NeedsDir(all, p) || HasFile(all, p) {
      NeedsDirStep(ms, m, p);
    }
    forall p | p in next
      ensures next[p] == if HasFile(all, p) then File(FileData(all, p)) else Dir
    {
      NeedsDirStep(ms, m, p);
    }
  }

  lemma FileStep(nodes: Nodes, ms: seq<Member>, m: Member)
    requires TreeIs(nodes, ms) && Usable(m) && m.kind.Regular?
    requires PathOf(m) !in WithDirs(nodes, DirPart(m))
    ensures TreeIs(WithDirs(nodes, DirPart(m))[PathOf(m) := File(Delivered(m))], ms + [m])
  {
    hide NeedsDir, PathOf, DirPart, SafeRelative, Delivered;
    var all := ms + [m];
    var next := WithDirs(nodes, DirPart(m))[PathOf(m) := File(Delivered(m))];
    assert all[..|all| - 1] == ms;
    forall p ensures p in next <==> NeedsDir(all, p) || HasFile(all, p) {
      NeedsDirStep(ms, m, p);
    }
    forall p | p in next
      ensures next[p] == if HasFile(all, p) then File(FileData(all, p)) else Dir
    {
      NeedsDirStep(ms, m, p);
    }
  }

  /** A file in the way of a directory is a conflict inside the archive. */
  lemma BlockedIsConflict(nodes: Nodes, ms: seq<Member>, i: nat)
    requires i < |ms| && Extracted(nodes, ms[..i]) && Blocked(nodes, DirPart(ms[i]))
    ensures !Extractable(ms)
  {
    var j := BlockerIsFile(nodes, ms[..i], DirPart(ms[i]));
    hide PathOf, DirPart, AllUsable, TreeIs, DistinctFiles;
    assert ms[..i][j] == ms[j];
    assert InTheWay(ms[j], ms[i]);
  }

  /** Only an extracted file can block a directory. */
  lemma BlockerIsFile(nodes: Nodes, ms: seq<Member>, p: Path) returns (j: nat)
    requires TreeIs(nodes, ms) && Blocked(nodes, p)
    ensures j < |ms| && ms[j].kind.Regular? && PathOf(ms[j]) <= p
  {
    hide PathOf, NeedsDir, FileData;
    var k :| 0 < k <= |p| && p[..k] in nodes && !nodes[p[..k]].Dir?;
    assert HasFile(ms, p[..k]);
    j :| 0 <= j < |ms| && ms[j].kind.Regular? && PathOf(ms[j]) == p[..k];
  }

  /** Anything already standing at a file's path is a conflict too. */
  lemma OccupiedIsConflict(nodes: Nodes, ms: seq<Member>, i: nat)
    requires i < |ms| && Extracted(nodes, ms[..i]) && ms[i].kind.Regular? && SafeRelative(ms[i].name).Ok?
    requires PathOf(ms[i]) in WithDirs(nodes, DirPart(ms[i]))
    ensures !Extractable(ms)
  {
    var p := PathOf(ms[i]);
    NormalNameIsPath(ms[i].name);
    if HasFile(ms[..i], p) {
      var j :| 0 <= j < i && ms[..i][j].kind.Regular? && PathOf(ms[..i][j]) == p;
      assert PathOf(ms[j]) == PathOf(ms[i]);
    } else {
      var j :| 0 <= j < i && p <= DirPart(ms[..i][j]);
      assert InTheWay(ms[i], ms[j]);
    }
  }

  predicate NamesFile(ms: seq<Member>, key: string) {
    exists i :: 0 <= i < |ms| && ms[i].kind.Regular? && ms[i].name == key
  }

  lemma NamesFileStep(ms: seq<Member>, m: Member, key: string)
    ensures NamesFile(ms + [m], key) <==> NamesFile(ms, key) || (m.kind.Regular? && m.name == key)
  {
    var all := ms + [m];
    assert all[|ms|] == m;
    if NamesFile(ms, key) {
      var i :| 0 <= i < |ms| && ms[i].kind.Regular? && ms[i].name == key;
      assert all[i] == ms[i];
    }
  }

  /** Which archive names were extracted, and where to. */
  ghost predicate RestoredIs(restored: map<string, Path>, ms: seq<Member>) {
    && (forall i :: 0 <= i < |ms| && ms[i].kind.Regular?
          ==> ms[i].name in restored && restored[ms[i].name] == PathOf(ms[i]))
    && (forall k :: k in restored ==> NamesFile(ms, k))
  }

  lemma TooLarge(ms: seq<Member>, i: nat)
    requires i < |ms|
    requires RegularCount(ms[..i + 1]) > MAX_FILES || RegularBytes(ms[..i + 1]) > MAX_BYTES
             || (ms[i].kind.Regular? && ms[i].size < 0)
    ensures !Extractable(ms)
  {
    hide PathOf, SafeRelative, Compatible, Delivered, RegularCount, RegularBytes;
    if Extractable(ms) {
      assert Usable(ms[i]);
      ExtractablePrefix(ms, i + 1);
      assert false;
    }
  }

  lemma FileIsPresent(nodes: Nodes, ms: seq<Member>, i: nat)
    requires TreeIs(nodes, ms) && AllUsable(ms) && i < |ms| && ms[i].kind.Regular?
    ensures PathOf(ms[i]) != [] && PathOf(ms[i]) in nodes && nodes[PathOf(ms[i])].File?
  {
    assert Usable(ms[i]);
    NormalNameIsPath(ms[i].name);
    hide NeedsDir, SafeRelative, FileData;
    assert HasFile(ms, PathOf(ms[i]));
  }

  /** A file already extracted is never on the way to an unblocked member. */
  lemma OldFileIsClear(nodes: Nodes, f: Member, m: Member)
    requires PathOf(f) != [] && PathOf(f) in nodes && nodes[PathOf(f)].File?
    requires !Blocked(nodes, DirPart(m))
    ensures !InTheWay(f, m)
  {
    hide PathOf, DirPart;
    if InTheWay(f, m) {
      PrefixIsSlice(PathOf(f), DirPart(m));
      assert false;
    }
  }

  lemma PrefixIsSlice(p: Path, d: Path)
    requires p <= d
    ensures |p| <= |d| && d[..|p|] == p
  {
  }

  lemma CompatibleStep(nodes: Nodes, ms: seq<Member>, m: Member)
    requires TreeIs(nodes, ms) && Compatible(ms) && AllUsable(ms) && Usable(m)
    requires !Blocked(nodes, DirPart(m))
    requires m.kind.Regular? ==> PathOf(m) !in WithDirs(nodes, DirPart(m))
    ensures Compatible(ms + [m])
  {
    NormalNameIsPath(m.name);
    hide SafeRelative, FileData;
    var n := |ms|;
    forall i | 0 <= i < n && ms[i].kind.Regular?
      ensures !InTheWay(ms[i], m) && (m.kind.Regular? ==> PathOf(ms[i]) != PathOf(m))
    {
      FileIsPresent(nodes, ms, i);
      OldFileIsClear(nodes, ms[i], m);
    }
    assert m.kind.Regular? ==> !NeedsDir(ms, PathOf(m));
    CompatibleAppend(ms, m);
  }

  lemma CompatibleAppend(ms: seq<Member>, m: Member)
    requires Compatible(ms) && PathOf(m) != []
    requires forall i :: 0 <= i < |ms| ==> !InTheWay(ms[i], m) && !InTheWay(m, ms[i])
    requires forall i :: 0 <= i < |ms| && ms[i].kind.Regular? && m.kind.Regular? ==> PathOf(ms[i]) != PathOf(m)
    ensures Compatible(ms + [m])
  {
    assert !InTheWay(m, m);
    hide PathOf, InTheWay;
    var all := ms + [m];
    var n := |ms|;
    forall i, j | 0 <= i <= n && 0 <= j <= n
      ensures !InTheWay(all[i], all[j])
      ensures i != j && all[i].kind.Regular? && all[j].kind.Regular? ==> PathOf(all[i]) != PathOf(all[j])
    {
      assert all[i] == if i < n then ms[i] else m;
      assert all[j] == if j < n then ms[j] else m;
    }
  }

  lemma RestoredStep(restored: map<string, Path>, ms: seq<Member>, m: Member)
    requires RestoredIs(restored, ms) && m.kind.Regular? && (m.name in restored ==> restored[m.name] == PathOf(m))
    ensures RestoredIs(restored[m.name := PathOf(m)], ms + [m])
  {
    var all := ms + [m];
    var next := restored[m.name := PathOf(m)];
    assert all[|ms|] == m;
    hide NamesFile, PathOf;
    forall k | k in next ensures NamesFile(all, k) {
      NamesFileStep(ms, m, k);
    }
    forall i | 0 <= i < |all| && all[i].kind.Regular?
      ensures all[i].name in next && next[all[i].name] == PathOf(all[i])
    {
      assert all[i] == if i < |ms| then ms[i] else m;
    }
    hide *;
    RestoredParts(next, all);
  }

  lemma RestoredParts(restored: map<string, Path>, ms: seq<Member>)
    requires forall i :: 0 <= i < |ms| && ms[i].kind.Regular?
               ==> ms[i].name in restored && restored[ms[i].name] == PathOf(ms[i])
    requires forall k :: k in restored ==> NamesFile(ms, k)
    ensures RestoredIs(restored, ms)
  {
    hide NamesFile, PathOf;
  }

  /** A repeated file name is a repeated file path. */
  lemma RepeatIsConflict(restored: map<string, Path>, ms: seq<Member>, i: nat)
    requires i < |ms| && RestoredIs(restored, ms[..i]) && ms[i].kind.Regular? && ms[i].name in restored
    ensures !Extractable(ms)
  {
    var j :| 0 <= j < i && ms[..i][j].kind.Regular? && ms[..i][j].name == ms[i].name;
    assert PathOf(ms[j]) == PathOf(ms[i]);
  }

  /** Extraction has handled `ms` completely and without conflict. */
  ghost predicate Extracted(nodes: Nodes, ms: seq<Member>) {
    TreeIs(nodes, ms) && AllUsable(ms) && Compatible(ms)
  }

  lemma UnusableMember(ms: seq<Member>, i: nat)
    requires i < |ms|
    requires SafeRelative(ms[i].name).Refused? || ms[i].kind.Special?
             || (ms[i].kind.Regular? && (ms[i].content.None? || |Delivered(ms[i])| != ms[i].size))
    ensures !Extractable(ms)
  {
    assert !Usable(ms[i]);
  }

  lemma WrittenPush(log: seq<Write>, w: Write)
    ensures WrittenBytes(log + [w]) == WrittenBytes(log) + |w.data|
  {
    assert (log + [w])[..|log|] == log;
  }

  lemma TotalsPush(ms: seq<Member>, m: Member)
    ensures RegularCount(ms + [m]) == RegularCount(ms) + if m.kind.Regular? then 1 else 0
    ensures RegularBytes(ms + [m]) == RegularBytes(ms) + FileSize(m)
  {
    assert (ms + [m])[..|ms|] == ms;
  }

  lemma DirectoryPath(m: Member)
    requires SafeRelative(m.name).Ok? && m.kind.Directory?
    ensures Usable(m) && SafeRelative(m.name).value == PathOf(m) == DirPart(m)
    ensures forall k :: 0 <= k < |PathOf(m)| ==> PlainPart(PathOf(m)[k])
  {
    NormalNameIsPath(m.name);
    hide SafeRelative;
  }

  lemma PrefixPush(ms: seq<Member>, i: nat)
    requires i < |ms|
    ensures ms[..i + 1] == ms[..i] + [ms[i]]
  {
  }

  lemma FilePath(m: Member)
    requires SafeRelative(m.name).Ok? && m.kind.Regular?
    ensures SafeRelative(m.name).value == PathOf(m) && PlainPath(PathOf(m)) && PathOf(m) != []
    ensures DirPart(m) == PathOf(m)[..|PathOf(m)| - 1]
    ensures forall k :: 0 <= k < |DirPart(m)| ==> PlainPart(DirPart(m)[k])
  {
    NormalNameIsPath(m.name);
    hide SafeRelative, PlainPart;
    assert forall k :: 0 <= k < |DirPart(m)| ==> DirPart(m)[k] == PathOf(m)[k];
  }

  lemma DirectoryExtracted(nodes: Nodes, ms: seq<Member>, m: Member)
    requires Extracted(nodes, ms) && Usable(m) && m.kind.Directory? && DirPart(m) == PathOf(m)
    requires !Blocked(nodes, PathOf(m))
    ensures Extracted(WithDirs(nodes, PathOf(m)), ms + [m])
  {
    CompatibleStep(nodes, ms, m);
    DirectoryStep(nodes, ms, m);
    hide TreeIs, Compatible, Usable, Blocked, WithDirs;
  }

  method ExtractDirectory(item: Member, dir: RestoreDir, ghost ms: seq<Member>, ghost i: nat)
    returns (ok: bool)
    requires i < |ms| && ms[i] == item && SafeRelative(item.name).Ok? && item.kind.Directory?
    requires dir.Safe() && Extracted(dir.nodes, ms[..i])
    modifies dir
    ensures dir.Safe() && dir.log == old(dir.log)
    ensures ok ==> Extracted(dir.nodes, ms[..i + 1])
    ensures !ok ==> !Extractable(ms)
  {
    hide *;
    DirectoryPath(item);
    PrefixPush(ms, i);
    ok := dir.MakeDirs(SafeRelative(item.name).value);
    if ok {
      DirectoryExtracted(old(dir.nodes), ms[..i], item);
    } else {
      BlockedIsConflict(old(dir.nodes), ms, i);
    }
  }

  lemma UsableFile(m: Member)
    requires SafeRelative(m.name).Ok? && m.kind.Regular? && m.size >= 0
    requires m.content.Some? && |Delivered(m)| == m.size
    ensures Usable(m)
  {
  }

  lemma FileExtracted(nodes: Nodes, ms: seq<Member>, m: Member)
    requires Extracted(nodes, ms) && Usable(m) && m.kind.Regular?
    requires !Blocked(nodes, DirPart(m)) && PathOf(m) !in WithDirs(nodes, DirPart(m))
    ensures Extracted(WithDirs(nodes, DirPart(m))[PathOf(m) := File(Delivered(m))], ms + [m])
  {
    CompatibleStep(nodes, ms, m);
    FileStep(nodes, ms, m);
    hide TreeIs, Compatible, Usable, Blocked, WithDirs, PathOf, DirPart, Delivered;
  }

  method ExtractFile(item: Member, dir: RestoreDir, ghost ms: seq<Member>, ghost i: nat)
    returns (ok: bool)
    requires i < |ms| && ms[i] == item && SafeRelative(item.name).Ok? && item.kind.Regular? && item.size >= 0
    requires dir.Safe() && Extracted(dir.nodes, ms[..i])
    modifies dir
    ensures dir.Safe()
    ensures dir.log == old(dir.log)
            || (item.content.Some? && dir.log == old(dir.log) + [Write(PathOf(item), Delivered(item))])
    ensures ok ==> Extracted(dir.nodes, ms[..i + 1]) && |Delivered(item)| == item.size
    ensures ok ==> dir.log == old(dir.log) + [Write(PathOf(item), Delivered(item))]
    ensures !ok ==> !Extractable(ms)
  {
    hide *;
    PrefixPush(ms, i);
    FilePath(item);
    var path := SafeRelative(item.name).value;
    var parent := path[..|path| - 1];
    var made := dir.MakeDirs(parent);
    if !made {
      BlockedIsConflict(old(dir.nodes), ms, i);
      return false;
    }
    if path in dir.nodes {
      OccupiedIsConflict(old(dir.nodes), ms, i);
      return false;
    }
    if item.content.None? {
      UnusableMember(ms, i);
      return false;
    }
    dir.CreateFile(path, Delivered(item));
    if |Delivered(item)| != item.size {
      UnusableMember(ms, i);
      return false;
    }
    UsableFile(item);
    FileExtracted(old(dir.nodes), ms[..i], item);
    return true;
  }

  /** A write copies a beginning of one regular member to that member's own path. */
  ghost predicate CopyOf(w: Write, m: Member) {
    && m.kind.Regular? && SafeRelative(m.name) == Ok(w.path)
    && m.content.Some? && w.data <= m.content.value && |w.data| <= m.size
  }

  ghost predicate Copied(log: seq<Write>, ms: seq<Member>) {
    forall k :: 0 <= k < |log| ==> exists i :: 0 <= i < |ms| && CopyOf(log[k], ms[i])
  }

  lemma CopiedPush(log: seq<Write>, ms: seq<Member>, i: nat)
    requires Copied(log, ms) && i < |ms| && ms[i].kind.Regular? && SafeRelative(ms[i].name).Ok?
    requires ms[i].content.Some? && ms[i].size >= 0
    ensures Copied(log + [Write(PathOf(ms[i]), Delivered(ms[i]))], ms)
  {
    assert CopyOf(Write(PathOf(ms[i]), Delivered(ms[i])), ms[i]);
    hide CopyOf, SafeRelative;
  }

  /** Every regular member stands at its own path with exactly its declared bytes. */
  ghost predicate FilesHold(nodes: Nodes, ms: seq<Member>) {
    forall i :: 0 <= i < |ms| && ms[i].kind.Regular? ==>
      && SafeRelative(ms[i].name).Ok? && Whole(ms[i])
      && SafeRelative(ms[i].name).value in nodes
      && nodes[SafeRelative(ms[i].name).value] == File(ms[i].content.value[..ms[i].size])
  }

  lemma TreeHoldsFiles(nodes: Nodes, ms: seq<Member>)
    requires TreeIs(nodes, ms) && AllUsable(ms) && DistinctFiles(ms)
    ensures FilesHold(nodes, ms)
  {
    hide SafeRelative, NeedsDir, FileData, Delivered;
    forall i | 0 <= i < |ms| && ms[i].kind.Regular?
      ensures && SafeRelative(ms[i].name).Ok? && Whole(ms[i])
              && PathOf(ms[i]) in nodes && nodes[PathOf(ms[i])] == File(ms[i].content.value[..ms[i].size])
    {
      assert Usable(ms[i]);
      FileDataIs(ms, i);
    }
  }

  method Extract(ms: seq<Member>, dir: RestoreDir)
    returns (r: Result<nat>, restored: map<string, Path>)
    requires dir.nodes == map[] && dir.log == []
    modifies dir
    ensures dir.Safe() && |dir.log| <= 5000 && WrittenBytes(dir.log) <= 2147483648
    ensures Copied(dir.log, ms)
    ensures r.Ok? <==> Extractable(ms)
    ensures r.Ok? ==> r.value == RegularCount(ms) && TreeIs(dir.nodes, ms) && RestoredIs(restored, ms)
    ensures r.Ok? ==> |dir.log| == RegularCount(ms) && WrittenBytes(dir.log) == RegularBytes(ms)
    ensures r.Ok? ==> FilesHold(dir.nodes, ms)
  {
    hide Extracted, RestoredIs, Extractable, SafeRelative, RestoreDir.Safe, Delivered, PathOf;
    hide RegularCount, RegularBytes, WrittenBytes, Copied, FilesHold;
    var count, total := 0, 0;
    restored := map[];
    NothingExtracted(dir);
    assert ms[..0] == [];
    var i := 0;
    while i < |ms|
      invariant 0 <= i <= |ms|
      invariant dir.Safe() && Extracted(dir.nodes, ms[..i]) && RestoredIs(restored, ms[..i])
      invariant count == RegularCount(ms[..i]) == |dir.log| <= MAX_FILES
      invariant total == RegularBytes(ms[..i]) == WrittenBytes(dir.log) <= MAX_BYTES
      invariant Copied(dir.log, ms)
    {
      var item := ms[i];
      assert ms[..i + 1] == ms[..i] + [item];
      TotalsPush(ms[..i], item);
      if SafeRelative(item.name).Refused? {
        UnusableMember(ms, i);
        return Refused, restored;
      }
      if item.kind.Directory? {
        var ok := ExtractDirectory(item, dir, ms, i);
        if !ok {
          return Refused, restored;
        }
        RestoredSkip(restored, ms[..i], item);
      } else {
        if item.kind.Special? {
          UnusableMember(ms, i);
          return Refused, restored;
        }
        if item.name in restored {
          RepeatIsConflict(restored, ms, i);
          return Refused, restored;
        }
        count := count + 1;
        total := total + item.size;
        if count > MAX_FILES || item.size < 0 || total > MAX_BYTES {
          TooLarge(ms, i);
          return Refused, restored;
        }
        WrittenPush(dir.log, Write(PathOf(item), Delivered(item)));
        if item.content.Some? {
          CopiedPush(dir.log, ms, i);
        }
        var ok := ExtractFile(item, dir, ms, i);
        if !ok {
          return Refused, restored;
        }
        RestoredStep(restored, ms[..i], item);
        restored := restored[item.name := PathOf(item)];
      }
      i := i + 1;
    }
    assert ms[..i] == ms;
    AllExtracted(dir.nodes, ms);
    return Ok(count), restored;
  }

  lemma NothingExtracted(dir: RestoreDir)
    requires dir.nodes == map[] && dir.log == []
    ensures Extracted(map[], []) && RestoredIs(map[], []) && dir.Safe()
    ensures RegularCount([]) == RegularBytes([]) == WrittenBytes([]) == 0
    ensures forall ms: seq<Member> :: Copied([], ms)
  {
  }

  lemma AllExtracted(nodes: Nodes, ms: seq<Member>)
    requires Extracted(nodes, ms) && RegularCount(ms) <= MAX_FILES && RegularBytes(ms) <= MAX_BYTES
    ensures TreeIs(nodes, ms) && Extractable(ms) && FilesHold(nodes, ms)
  {
    TreeHoldsFiles(nodes, ms);
  }

  lemma RestoredSkip(restored: map<string, Path>, ms: seq<Member>, m: Member)
    requires RestoredIs(restored, ms) && !m.kind.Regular?
    ensures RestoredIs(restored, ms + [m])
  {
    var all := ms + [m];
    hide NamesFile, PathOf;
    forall k | k in restored ensures NamesFile(all, k) {
      NamesFileStep(ms, m, k);
    }
  }

  // ------------------------------------------------------------------
  // Member order does not matter
  // ------------------------------------------------------------------

  lemma {:induction false} Multiplicity(s: seq<Member>, x: Member)
    ensures multiset(s)[x] <= 1 <==> forall i, j :: 0 <= i < j < |s| ==> !(s[i] == x && s[j] == x)
  {
    if s == [] {
    } else {
      var n := |s| - 1;
      assert s == s[..n] + [s[n]];
      Multiplicity(s[..n], x);
      if s[n] == x && multiset(s[..n])[x] == 1 {
        var i :| 0 <= i < n && s[..n][i] == x;
        assert s[i] == x;
      } else if multiset(s[..n])[x] > 1 {
        var i, j :| 0 <= i < j < n && s[..n][i] == x && s[..n][j] == x;
        assert s[i] == x && s[j] == x;
      }
    }
  }

  lemma DistinctFilesAnyOrder(ms: seq<Member>, ns: seq<Member>)
    requires multiset(ms) == multiset(ns) && DistinctFiles(ms)
    ensures DistinctFiles(ns)
  {
    forall i, j | 0 <= i < j < |ns| && ns[i].kind.Regular? && ns[j].kind.Regular?
      ensures PathOf(ns[i]) != PathOf(ns[j])
    {
      assert ns[i] in multiset(ms) && ns[j] in multiset(ms);
      var a :| 0 <= a < |ms| && ms[a] == ns[i];
      var b :| 0 <= b < |ms| && ms[b] == ns[j];
      if ns[i] == ns[j] {
        Multiplicity(ns, ns[i]);
        Multiplicity(ms, ns[i]);
        assert false;
      }
    }
  }

  lemma ExtractableAnyOrder(ms: seq<Member>, ns: seq<Member>)
    requires multiset(ms) == multiset(ns) && Extractable(ms)
    ensures Extractable(ns)
  {
    SumPermute(ms, ns, FileSize);
    CountPermute(ms, ns, IsRegular);
    DistinctFilesAnyOrder(ms, ns);
    forall i | 0 <= i < |ns| ensures exists a :: 0 <= a < |ms| && ms[a] == ns[i] {
      assert ns[i] in multiset(ms);
    }
  }

  lemma Position(ns: seq<Member>, m: Member) returns (j: nat)
    requires m in ns
    ensures j < |ns| && ns[j] == m
  {
    j :| 0 <= j < |ns| && ns[j] == m;
  }

  lemma SameDirsAndFiles(ms: seq<Member>, ns: seq<Member>, p: Path)
    requires forall m :: m in ms ==> m in ns
    ensures NeedsDir(ms, p) ==> NeedsDir(ns, p)
    ensures HasFile(ms, p) ==> HasFile(ns, p)
  {
    if NeedsDir(ms, p) {
      var i :| 0 <= i < |ms| && p <= DirPart(ms[i]);
      var j := Position(ns, ms[i]);
      assert p <= DirPart(ns[j]);
    }
    if HasFile(ms, p) {
      var i :| 0 <= i < |ms| && ms[i].kind.Regular? && PathOf(ms[i]) == p;
      var j := Position(ns, ms[i]);
      assert PathOf(ns[j]) == p;
    }
  }

  lemma SameData(ms: seq<Member>, ns: seq<Member>, p: Path)
    requires forall m :: m in ms ==> m in ns
    requires DistinctFiles(ms) && DistinctFiles(ns) && HasFile(ms, p)
    ensures HasFile(ns, p) && FileData(ms, p) == FileData(ns, p)
  {
    var i :| 0 <= i < |ms| && ms[i].kind.Regular? && PathOf(ms[i]) == p;
    var j := Position(ns, ms[i]);
    FileDataIs(ms, i);
    FileDataIs(ns, j);
  }

  /** Reordering an archive changes neither whether it is accepted nor the tree
      it produces, although the walk refuses at the first conflict it meets. */
  lemma ExtractionIgnoresOrder(ms: seq<Member>, ns: seq<Member>, nodes: Nodes)
    requires multiset(ms) == multiset(ns)
    ensures Extractable(ms) <==> Extractable(ns)
    ensures Extractable(ms) && TreeIs(nodes, ms) ==> TreeIs(nodes, ns)
  {
    if Extractable(ms) { ExtractableAnyOrder(ms, ns); }
    if Extractable(ns) { ExtractableAnyOrder(ns, ms); }
    if Extractable(ms) && TreeIs(nodes, ms) {
      forall m ensures m in ms <==> m in ns {
        assert m in ms <==> m in multiset(ms);
        assert m in ns <==> m in multiset(ns);
      }
      SameTree(ms, ns, nodes);
    }
  }

  lemma SameTree(ms: seq<Member>, ns: seq<Member>, nodes: Nodes)
    requires forall m :: m in ms <==> m in ns
    requires DistinctFiles(ms) && DistinctFiles(ns) && TreeIs(nodes, ms)
    ensures TreeIs(nodes, ns)
  {
    hide NeedsDir, HasFile, FileData, DistinctFiles;
    forall p ensures NeedsDir(ms, p) == NeedsDir(ns, p) && HasFile(ms, p) == HasFile(ns, p) {
      SameDirsAndFiles(ms, ns, p);
      SameDirsAndFiles(ns, ms, p);
    }
    forall p | p in nodes
      ensures nodes[p] == if HasFile(ns, p) then File(FileData(ns, p)) else Dir
    {
      if HasFile(ns, p) {
        SameData(ms, ns, p);
      }
    }
  }

  // ------------------------------------------------------------------
  // Reconciliation with the restored document rows
  // ------------------------------------------------------------------

  predicate DistinctDocuments(docs: seq<Document>) {
    forall i, j :: 0 <= i < j < |docs| ==> docs[i].key != docs[j].key
  }

  /** Some regular member of that very name has the document's size and digest. */
  ghost predicate Backed(d: Document, ms: seq<Member>, digest: Digest) {
    && IsHex(d.sha256, 64)
    && (exists i :: 0 <= i < |ms| && ms[i].kind.Regular? && ms[i].name == d.key && Whole(ms[i])
                    && d.size == ms[i].size && d.sha256 == digest(ms[i].content.value[..ms[i].size]))
  }

  ghost predicate AllBacked(docs: seq<Document>, ms: seq<Member>, digest: Digest) {
    forall i :: 0 <= i < |docs| ==> Backed(docs[i], ms, digest)
  }

  /** The member behind a restored name, and where its bytes stand. */
  lemma RestoredMember(ms: seq<Member>, nodes: Nodes, restored: map<string, Path>, key: string) returns (i: nat)
    requires Extracted(nodes, ms) && RestoredIs(restored, ms) && key in restored
    ensures i < |ms| && ms[i].kind.Regular? && ms[i].name == key && Whole(ms[i])
    ensures restored[key] == PathOf(ms[i]) && SafeRelative(key).Ok?
  {
    i :| 0 <= i < |ms| && ms[i].kind.Regular? && ms[i].name == key;
    hide SafeRelative;
    assert Usable(ms[i]);
  }

  /** On an extracted archive a document is backed when the file restored under
      its key has the right shape, size and digest. */
  lemma BackedByFile(d: Document, ms: seq<Member>, digest: Digest, nodes: Nodes, restored: map<string, Path>)
    requires Extracted(nodes, ms) && RestoredIs(restored, ms)
    ensures d.key in restored ==> restored[d.key] in nodes && nodes[restored[d.key]].File?
    ensures Backed(d, ms, digest)
            <==> IsHex(d.sha256, 64) && d.key in restored
                 && d.size == |nodes[restored[d.key]].data| >= 0 && d.sha256 == digest(nodes[restored[d.key]].data)
    ensures d.key in restored ==> SafeRelative(d.key).Ok?
  {
    TreeHoldsFiles(nodes, ms);
    if d.key in restored {
      var i := RestoredMember(ms, nodes, restored, d.key);
      var m := ms[i];
      hide TreeIs, AllUsable, Compatible, RestoredIs, SafeRelative, IsHex;
      assert nodes[restored[d.key]] == File(m.content.value[..m.size]);
      forall j | 0 <= j < |ms| && ms[j].kind.Regular? && ms[j].name == d.key
        ensures Whole(ms[j]) && ms[j].content.value[..ms[j].size] == m.content.value[..m.size]
      {
        assert PathOf(ms[j]) == PathOf(m);
      }
      SameBytes(ms, m, d.key);
    }
  }

  lemma SameBytes(ms: seq<Member>, m: Member, key: string)
    requires Whole(m)
    requires forall j :: 0 <= j < |ms| && ms[j].kind.Regular? && ms[j].name == key
               ==> Whole(ms[j]) && ms[j].content.value[..ms[j].size] == m.content.value[..m.size]
    ensures forall j :: 0 <= j < |ms| && ms[j].kind.Regular? && ms[j].name == key ==> ms[j].size == m.size
  {
    forall j | 0 <= j < |ms| && ms[j].kind.Regular? && ms[j].name == key ensures ms[j].size == m.size {
      assert |ms[j].content.value[..ms[j].size]| == ms[j].size;
    }
  }

  method Reconcile(docs: seq<Document>, nodes: Nodes, restored: map<string, Path>, digest: Digest,
                   ghost ms: seq<Member>)
    returns (r: Result<nat>)
    requires Extracted(nodes, ms) && RestoredIs(restored, ms)
    ensures r.Ok? <==> AllBacked(docs, ms, digest) && DistinctDocuments(docs)
    ensures r.Ok? ==> r.value == |docs|
  {
    hide *;
    AllChecked(docs, ms, digest);
    var matched: set<string> := {};
    var i := 0;
    while i < |docs|
      invariant 0 <= i <= |docs|
      invariant forall key :: key in matched <==> KeyBefore(docs, i, key)
      invariant |matched| == i
      invariant Checked(docs, i, ms, digest)
    {
      var doc := docs[i];
      CheckedStep(docs, i, ms, digest);
      KeyBeforeStep(docs, i);
      BackedByFile(doc, ms, digest, nodes, restored);
      if SafeRelative(doc.key).Refused? {
        return Refused;
      }
      if doc.key in matched || doc.key !in restored || !IsHex(doc.sha256, 64) || doc.size < 0 {
        return Refused;
      }
      var data := nodes[restored[doc.key]].data;
      if |data| != doc.size || digest(data) != doc.sha256 {
        return Refused;
      }
      matched := matched + {doc.key};
      i := i + 1;
    }
    return Ok(|matched|);
  }

  predicate KeyBefore(docs: seq<Document>, i: nat, key: string)
    requires i <= |docs|
  {
    exists k :: 0 <= k < i && docs[k].key == key
  }

  lemma KeyBeforeStep(docs: seq<Document>, i: nat)
    requires i < |docs|
    ensures forall key :: KeyBefore(docs, i + 1, key) <==> KeyBefore(docs, i, key) || key == docs[i].key
  {
    forall key ensures KeyBefore(docs, i + 1, key) <==> KeyBefore(docs, i, key) || key == docs[i].key {
      if KeyBefore(docs, i, key) {
        var k :| 0 <= k < i && docs[k].key == key;
        assert 0 <= k < i + 1 && docs[k].key == key;
      }
    }
  }

  ghost predicate Checked(docs: seq<Document>, i: nat, ms: seq<Member>, digest: Digest)
    requires i <= |docs|
  {
    && (forall k :: 0 <= k < i ==> Backed(docs[k], ms, digest))
    && (forall a, b :: 0 <= a < b < i ==> docs[a].key != docs[b].key)
  }

  lemma CheckedStep(docs: seq<Document>, i: nat, ms: seq<Member>, digest: Digest)
    requires i < |docs| && Checked(docs, i, ms, digest)
    ensures Checked(docs, i + 1, ms, digest)
            <==> Backed(docs[i], ms, digest) && !KeyBefore(docs, i, docs[i].key)
    ensures !Checked(docs, i + 1, ms, digest) ==> !(AllBacked(docs, ms, digest) && DistinctDocuments(docs))
  {
    hide Backed;
  }

  lemma AllChecked(docs: seq<Document>, ms: seq<Member>, digest: Digest)
    ensures Checked(docs, |docs|, ms, digest) <==> AllBacked(docs, ms, digest) && DistinctDocuments(docs)
    ensures Checked(docs, 0, ms, digest) && forall key :: !KeyBefore(docs, 0, key)
  {
    hide Backed;
  }

  /** Restores into a new empty directory and checks every document. The result
      counts are exact, the tree is exactly the archive, and nothing outside the
      stated bounds is written even when the call refuses. */
  method RestoreAndReconcile(ms: seq<Member>, dir: RestoreDir, docs: seq<Document>, digest: Digest)
    returns (r: Result<Reconciled>)
    requires dir.log == []
    modifies dir
    ensures r.Ok?
            <==> 1 <= |docs| <= 5000 && dir.isDirectory && old(dir.nodes) == map[]
                 && Extractable(ms) && AllBacked(docs, ms, digest) && DistinctDocuments(docs)
    ensures r.Ok? ==> r.value == Reconciled(RegularCount(ms), |docs|)
    ensures r.Ok? ==> TreeIs(dir.nodes, ms) && FilesHold(dir.nodes, ms)
    ensures r.Ok? ==> WrittenBytes(dir.log) == RegularBytes(ms)
    ensures !dir.isDirectory || old(dir.nodes) != map[] ==> dir.nodes == old(dir.nodes) && dir.log == []
    ensures old(dir.nodes) == map[]
            ==> dir.Safe() && |dir.log| <= 5000 && WrittenBytes(dir.log) <= 2147483648
                && Copied(dir.log, ms)
  {
    if docs == [] || |docs| > MAX_FILES {
      return Refused;
    }
    if !dir.isDirectory || dir.nodes != map[] {
      return Refused;
    }
    var extracted, restored := Extract(ms, dir);
    if extracted.Refused? {
      return Refused;
    }
    var matched := Reconcile(docs, dir.nodes, restored, digest, ms);
    if matched.Refused? {
      return Refused;
    }
    return Ok(Reconciled(extracted.value, matched.value));
  }
}

/** Archive member names: the restore walk's strict relative paths, the recovery
    walk's normalised names, and how the two agree. */
module ArchiveNames {
  import opened Outcomes
  import opened PyText

  type Path = seq<string>

  predicate BadStart(name: string) {
    name == "" || name[0] == '/' || '\\' in name || exists i :: 0 <= i < |name| && name[i] as int < 32
  }

  /** `name.rstrip("/")`. */
  function RStripSlash(name: string): (s: string)
    ensures s <= name
    ensures s != "" ==> s[|s| - 1] != '/'
  {
    if name != "" && name[|name| - 1] == '/' then RStripSlash(name[..|name| - 1]) else name
  }

  predicate PlainPart(part: string) {
    part != "" && part != "." && part != ".." && Free(part, '/')
  }

  predicate PlainPath(p: Path) {
    p != [] && forall i :: 0 <= i < |p| ==> PlainPart(p[i])
  }

  /** Path segments that survive `PurePosixPath`: neither empty nor a dot. */
  function Kept(parts: seq<string>): seq<string> {
    if parts == [] then []
    else if parts[0] == "" || parts[0] == "." then Kept(parts[1..])
    else [parts[0]] + Kept(parts[1..])
  }

  /** `str(PurePosixPath(s))`; exactly two leading slashes are their own root. */
  function PosixText(s: string): string {
    var root := if "//" <= s && !("///" <= s) then "//" else if "/" <= s then "/" else "";
    var text := root + JoinWith(Kept(SplitOn(s, '/')), '/');
    if text == "" then "." else text
  }

  function SafeRelative(name: string): (r: Result<Path>)
  {
    if BadStart(name) then Refused
    else
      var stripped := RStripSlash(name);
      var parts := SplitOn(stripped, '/');
      if stripped == "" || exists i :: 0 <= i < |parts| && parts[i] in ["", ".", ".."] then Refused
      else if PosixText(stripped) != stripped then Refused
      else Ok(parts)
  }

  /** Where the operating system ends up when it follows `parts` from `base`. */
  function Resolve(base: Path, parts: Path): Path
    decreases |parts|
  {
    if parts == [] then base
    else if parts[0] == "" || parts[0] == "." then Resolve(base, parts[1..])
    else if parts[0] == ".." then Resolve(if base == [] then [] else base[..|base| - 1], parts[1..])
    else Resolve(base + [parts[0]], parts[1..])
  }

  lemma {:induction false} KeptPlain(parts: seq<string>)
    requires forall i :: 0 <= i < |parts| ==> parts[i] != "" && parts[i] != "."
    ensures Kept(parts) == parts
  {
    if parts == [] {
    } else {
      KeptPlain(parts[1..]);
    }
  }

  /** A safe path stays strictly below any directory it is joined to. */
  lemma {:induction false} ResolvesBelow(base: Path, p: Path)
    requires forall i :: 0 <= i < |p| ==> PlainPart(p[i])
    ensures Resolve(base, p) == base + p
    decreases |p|
  {
    if p == [] {
      assert base + p == base;
    } else {
      ResolvesBelow(base + [p[0]], p[1..]);
      assert base + [p[0]] + p[1..] == base + p;
    }
  }

  lemma PlainTextIsNormal(s: string)
    requires PlainPath(SplitOn(s, '/'))
    ensures s != "" && s != "." && s[0] != '/' && PosixText(s) == s
  {
    var parts := SplitOn(s, '/');
    KeptPlain(parts);
    JoinSplit(s, '/');
    assert PlainPart(parts[0]);
    if s == "." {
      SplitWhole(s, '/');
      assert false;
    }
    assert "" + s == s;
  }

  lemma SafePartsArePlain(s: string)
    ensures (forall i :: 0 <= i < |SplitOn(s, '/')| ==> SplitOn(s, '/')[i] !in ["", ".", ".."])
            <==> PlainPath(SplitOn(s, '/'))
  {
    var parts := SplitOn(s, '/');
    assert forall i :: 0 <= i < |parts| ==> parts[i] in parts;
  }

  /** The normalisation test never fires: once every part is plain the text is
      already normal, so the parts alone decide. */
  lemma NormalTestIsRedundant(name: string)
    ensures SafeRelative(name)
         == if !BadStart(name) && PlainPath(SplitOn(RStripSlash(name), '/'))
            then Ok(SplitOn(RStripSlash(name), '/')) else Refused
  {
    var stripped := RStripSlash(name);
    SafePartsArePlain(stripped);
    if PlainPath(SplitOn(stripped, '/')) {
      PlainTextIsNormal(stripped);
    }
  }

  /** No backslash and no control character anywhere. */
  ghost predicate Clean(name: string) {
    forall i :: 0 <= i < |name| ==> name[i] != '\\' && name[i] as int >= 0x20
  }

  lemma StartIs(name: string)
    ensures !BadStart(name) <==> Clean(name) && exists c, rest :: name == [c] + rest && c != '/'
  {
    if name != "" {
      assert name == [name[0]] + name[1..];
    }
  }

  ghost function Slashes(n: nat): (s: string)
    ensures |s| == n && forall i :: 0 <= i < n ==> s[i] == '/'
  {
    if n == 0 then "" else Slashes(n - 1) + "/"
  }

  lemma {:induction false} SlashesCut(name: string) returns (n: nat)
    ensures name == RStripSlash(name) + Slashes(n)
  {
    if name == "" || name[|name| - 1] != '/' {
      n := 0;
    } else {
      n := SlashesCut(name[..|name| - 1]);
      n := n + 1;
      assert name == name[..|name| - 1] + "/";
    }
  }

  lemma {:induction false} SlashesAdded(s: string, n: nat)
    requires s != "" && s[|s| - 1] != '/'
    ensures RStripSlash(s + Slashes(n)) == s
  {
    if n == 0 {
      assert s + Slashes(n) == s;
    } else {
      SlashesAdded(s, n - 1);
      assert (s + Slashes(n))[..|s| + n - 1] == s + Slashes(n - 1);
    }
  }

  /** Plain parts joined by slashes neither start nor end with one. */
  lemma {:induction false} JoinedEnds(p: Path)
    requires PlainPath(p)
    ensures JoinWith(p, '/') != "" && JoinWith(p, '/')[0] != '/'
    ensures JoinWith(p, '/')[|JoinWith(p, '/')| - 1] != '/'
  {
    assert PlainPart(p[0]) && p[0][0] != '/' && p[0][|p[0]| - 1] != '/';
    if |p| == 1 {
    } else {
      assert forall i :: 0 <= i < |p[1..]| ==> p[1..][i] == p[i + 1];
      JoinedEnds(p[1..]);
    }
  }

  lemma PlainParts(p: Path)
    requires PlainPath(p)
    ensures p != [] && AllFree(p, '/')
  {
    forall x | x in p ensures Free(x, '/') {
      var i :| 0 <= i < |p| && p[i] == x;
    }
  }

  /** The names that mean a path: its plain parts joined by slashes, any number of
      slashes behind, and no backslash or control character. */
  lemma SafeNameIs(name: string, p: Path)
    ensures SafeRelative(name) == Ok(p)
            <==> PlainPath(p) && Clean(name) && exists n: nat :: name == JoinWith(p, '/') + Slashes(n)
  {
    NormalTestIsRedundant(name);
    StartIs(name);
    hide SafeRelative, BadStart, Clean, PlainPath;
    if SafeRelative(name) == Ok(p) {
      var n := SlashesCut(name);
      JoinSplit(RStripSlash(name), '/');
      assert name == JoinWith(p, '/') + Slashes(n);
    }
    if n: nat :| PlainPath(p) && Clean(name) && name == JoinWith(p, '/') + Slashes(n) {
      var text := JoinWith(p, '/');
      JoinedEnds(p);
      SlashesAdded(text, n);
      PlainParts(p);
      SplitJoin(p, '/');
      assert name == [name[0]] + name[1..] && name[0] == text[0];
    }
  }

  /** A relative name names the directory itself when nothing of it is kept. */
  lemma RelativeText(name: string)
    requires !BadStart(name)
    ensures PosixText(name) == "." <==> Kept(SplitOn(name, '/')) == []
    ensures PosixText(name) != "." ==> PosixText(name) == JoinWith(Kept(SplitOn(name, '/')), '/')
  {
    var kept := Kept(SplitOn(name, '/'));
    KeptParts(SplitOn(name, '/'));
    assert !("/" <= name) && !("//" <= name);
    assert "" + JoinWith(kept, '/') == JoinWith(kept, '/');
    hide Kept, SplitOn, BadStart;
    if kept != [] {
      assert kept[0] in kept;
      if |kept| > 1 {
        assert JoinWith(kept, '/')[|kept[0]|] == '/';
      }
    }
  }

  lemma {:induction false} KeptParts(parts: seq<string>)
    ensures forall x :: x in Kept(parts) ==> x != "" && x != "."
  {
    if parts == [] {
    } else {
      KeptParts(parts[1..]);
    }
  }

  lemma {:induction false} KeptAppendEmpty(parts: seq<string>)
    ensures Kept(parts + [""]) == Kept(parts)
  {
    if parts == [] {
      assert [""][1..] == [];
    } else {
      assert (parts + [""])[1..] == parts[1..] + [""];
      KeptAppendEmpty(parts[1..]);
    }
  }

  lemma {:induction false} SplitTrailingSlash(s: string)
    ensures SplitOn(s + "/", '/') == SplitOn(s, '/') + [""]
  {
    if s == "" {
      assert s + "/" == "/" && "/"[1..] == "";
    } else {
      assert (s + "/")[1..] == s[1..] + "/";
      SplitTrailingSlash(s[1..]);
    }
  }

  lemma {:induction false} KeptStripped(name: string)
    ensures Kept(SplitOn(RStripSlash(name), '/')) == Kept(SplitOn(name, '/'))
  {
    if name == "" || name[|name| - 1] != '/' {
    } else {
      var s := name[..|name| - 1];
      assert name == s + "/";
      KeptStripped(s);
      SplitTrailingSlash(s);
      KeptAppendEmpty(SplitOn(s, '/'));
    }
  }

  /** On a name the restore walk accepts, the recovery walk sees the same path. */
  lemma NormalNameIsPath(name: string)
    requires SafeRelative(name).Ok?
    ensures var p := SafeRelative(name).value;
            PlainPath(p) && PosixText(name) == JoinWith(p, '/') && PosixText(name) != "."
            && ".." !in SplitOn(RStripSlash(name), '/')
  {
    NormalTestIsRedundant(name);
    var p := SafeRelative(name).value;
    PlainTextIsNormal(RStripSlash(name));
    KeptStripped(name);
    JoinSplit(RStripSlash(name), '/');
    assert !("/" <= name) && !("//" <= name);
    assert "" + JoinWith(Kept(p), '/') == JoinWith(Kept(p), '/');
    KeptPlain(p);
  }

  /** Distinct paths have distinct normalised names. */
  lemma NormalNameInjective(a: string, b: string)
    requires SafeRelative(a).Ok? && SafeRelative(b).Ok?
    ensures PosixText(a) == PosixText(b) <==> SafeRelative(a).value == SafeRelative(b).value
  {
    NormalNameIsPath(a);
    NormalNameIsPath(b);
    var p, q := SafeRelative(a).value, SafeRelative(b).value;
    NormalTestIsRedundant(a);
    NormalTestIsRedundant(b);
    SplitJoin(p, '/');
    SplitJoin(q, '/');
  }

  lemma {:induction false} StrippedStart(name: string)
    requires name != "" && name[0] != '/'
    ensures RStripSlash(name) != "" && RStripSlash(name)[0] == name[0]
  {
    if name[|name| - 1] != '/' {
    } else {
      StrippedStart(name[..|name| - 1]);
    }
  }

  /** The restore walk refuses every name that starts with a dot segment. */
  lemma DotPrefixRefused(rest: string)
    ensures SafeRelative("./" + rest).Refused?
  {
    var name := "./" + rest;
    StrippedStart(name);
    var s := RStripSlash(name);
    if |s| == 1 {
      assert s == ".";
      SplitWhole(s, '/');
    } else {
      assert s[1] == name[1];
      assert s == "." + ['/'] + s[2..];
      SplitAtFirst(".", '/', s[2..]);
    }
    assert SplitOn(s, '/')[0] == ".";
  }
}

/** The restricted environment file reader, its quoted snapshot printer and its
    NUL-delimited record printer. */
module DotEnv {
  import opened Outcomes
  import opened PyText

  const MAX_ENV_BYTES := 65536

  const DANGEROUS := {
    "BASH_ENV", "ENV", "IFS", "PATH", "CDPATH", "HOME", "SHELLOPTS",
    "BASHOPTS", "GLOBIGNORE", "PS4", "PROMPT_COMMAND", "TMPDIR",
    "NODE_OPTIONS", "PYTHONPATH", "PYTHONHOME", "PYTHONSTARTUP"
  }

  const DANGEROUS_PREFIXES :=
    ["BASH_", "LD_", "PYTHON", "GIT_", "NPM_CONFIG_", "DOCKER_", "COMPOSE_"]

  datatype Entry = Entry(name: string, value: string)

  // ------------------------------------------------------------------
  // Names and values
  // ------------------------------------------------------------------

  predicate NameShape(s: string) {
    && s != "" && 'A' <= s[0] <= 'Z'
    && forall i :: 0 <= i < |s| ==> 'A' <= s[i] <= 'Z' || '0' <= s[i] <= '9' || s[i] == '_'
  }

  predicate SafeName(s: string) {
    NameShape(s) && s !in DANGEROUS && forall p :: p in DANGEROUS_PREFIXES ==> !(p <= s)
  }

  predicate SafeChar(c: char) {
    c !in "$`\\\"'" && 32 <= c as int && c as int != 127
  }

  predicate SafeValue(s: string) {
    forall i :: 0 <= i < |s| ==> SafeChar(s[i])
  }

  /** The letters, digits and underscore of a name, one by one. */
  lemma NameLetters(s: string)
    ensures NameShape(s)
            <==> && s != "" && s[0] in "ABCDEFGHIJKLMNOPQRSTUVWXYZ"
                 && forall i :: 0 <= i < |s| ==>
                      s[i] in "ABCDEFGHIJKLMNOPQRSTUVWXYZ" || s[i] in "0123456789" || s[i] == '_'
  {
    forall c: char ensures c in "ABCDEFGHIJKLMNOPQRSTUVWXYZ" <==> 'A' <= c <= 'Z' {
      UpperListed(c);
    }
    forall c: char ensures c in "0123456789" <==> '0' <= c <= '9' {
      DigitListed(c);
    }
  }

  ghost predicate AnyOf(s: string, a: string, b: string, c: string, d: string) {
    s == a || s == b || s == c || s == d
  }

  /** Four of the sixteen refused names are already refused by a prefix; these twelve
      and the seven prefixes are all that is refused. */
  lemma RefusedNames(s: string)
    ensures SafeName(s)
            <==> && NameShape(s)
                 && !AnyOf(s, "ENV", "IFS", "PATH", "CDPATH")
                 && !AnyOf(s, "HOME", "SHELLOPTS", "BASHOPTS", "GLOBIGNORE")
                 && !AnyOf(s, "PS4", "PROMPT_COMMAND", "TMPDIR", "NODE_OPTIONS")
                 && !("BASH_" <= s) && !("LD_" <= s) && !("PYTHON" <= s) && !("GIT_" <= s)
                 && !("NPM_CONFIG_" <= s) && !("DOCKER_" <= s) && !("COMPOSE_" <= s)
  {
    hide NameShape;
    CoveredNames(s);
    PrefixesAre(s);
    hide DANGEROUS_PREFIXES;
  }

  lemma PrefixesAre(s: string)
    ensures (exists p :: p in DANGEROUS_PREFIXES && p <= s)
            <==> || "BASH_" <= s || "LD_" <= s || "PYTHON" <= s || "GIT_" <= s
                 || "NPM_CONFIG_" <= s || "DOCKER_" <= s || "COMPOSE_" <= s
  {
    var ps := DANGEROUS_PREFIXES;
    assert ps[0] == "BASH_" && ps[1] == "LD_" && ps[2] == "PYTHON" && ps[3] == "GIT_";
    assert ps[4] == "NPM_CONFIG_" && ps[5] == "DOCKER_" && ps[6] == "COMPOSE_";
    assert forall i :: 0 <= i < 7 ==> ps[i] in ps;
    assert |ps| == 7;
  }

  lemma CoveredNames(s: string)
    ensures s == "BASH_ENV" ==> "BASH_" <= s
    ensures s == "PYTHONPATH" || s == "PYTHONHOME" || s == "PYTHONSTARTUP" ==> "PYTHON" <= s
  {
  }

  lemma SafeChars(c: char)
    ensures SafeChar(c)
            <==> && c != '$' && c != '`' && c != '\\' && c != '"' && c != '\''
                 && c as int >= 0x20 && c as int != 0x7f
  {
  }

  predicate NoSpace(s: string) {
    forall i :: 0 <= i < |s| ==> !IsSpace(s[i])
  }

  // ------------------------------------------------------------------
  // The assignment grammar, independent of the reader
  // ------------------------------------------------------------------

  function Quoted(q: char, value: string): string {
    [q] + value + [q]
  }

  /** The three spellings of a value: bare, double quoted, single quoted. */
  predicate Spells(rhs: string, value: string) {
    (rhs == value && NoSpace(value)) || rhs == Quoted('"', value) || rhs == Quoted('\'', value)
  }

  /** The stripped line `s` assigns `e`. */
  predicate Denotes(s: string, e: Entry) {
    && SafeName(e.name) && SafeValue(e.value)
    && |s| > |e.name| && s[..|e.name|] == e.name && s[|e.name|] == '='
    && Spells(s[|e.name| + 1..], e.value)
  }

  predicate Ignored(s: string) {
    s == "" || s[0] == '#'
  }

  /** The text after the first equals sign, branch by branch. */
  function ReadValue(rhs: string): Option<string> {
    if rhs != "" && (rhs[0] == '"' || rhs[0] == '\'') then
      if |rhs| < 2 || rhs[|rhs| - 1] != rhs[0] || rhs[0] in rhs[1..|rhs| - 1] then None
      else if !SafeValue(rhs[1..|rhs| - 1]) then None
      else Some(rhs[1..|rhs| - 1])
    else if !NoSpace(rhs) || !SafeValue(rhs) then None
    else Some(rhs)
  }

  /** One stripped line: name, first equals sign, value. */
  function ReadAssignment(s: string): Option<Entry> {
    var eq := IndexOf(s, '=');
    if eq == |s| || !SafeName(s[..eq]) then None
    else match ReadValue(s[eq + 1..])
         case None => None
         case Some(value) => Some(Entry(s[..eq], value))
  }

  lemma QuotesAreUnsafe(value: string)
    requires SafeValue(value)
    ensures '"' !in value && '\'' !in value
  {
  }

  lemma ReadQuoted(q: char, value: string)
    requires q == '"' || q == '\''
    requires SafeValue(value)
    ensures ReadValue(Quoted(q, value)) == Some(value)
  {
    var rhs := Quoted(q, value);
    assert rhs[1..|rhs| - 1] == value;
    QuotesAreUnsafe(value);
  }

  lemma ValueMeetsSpelling(rhs: string, value: string)
    ensures ReadValue(rhs) == Some(value) <==> SafeValue(value) && Spells(rhs, value)
  {
    if SafeValue(value) {
      ReadQuoted('"', value);
      ReadQuoted('\'', value);
      if rhs == value && NoSpace(value) {
        QuotesAreUnsafe(value);
        assert rhs != "" ==> rhs[0] in value;
      }
    }
    if ReadValue(rhs) == Some(value) && rhs != value {
      assert value == rhs[1..|rhs| - 1];
      Requoted(rhs);
    }
  }

  /** A text between two equal characters is its middle, quoted. */
  lemma Requoted(rhs: string)
    requires |rhs| >= 2 && rhs[0] == rhs[|rhs| - 1]
    ensures rhs == Quoted(rhs[0], rhs[1..|rhs| - 1])
  {
    var quoted := Quoted(rhs[0], rhs[1..|rhs| - 1]);
    forall i | 0 <= i < |rhs| ensures rhs[i] == quoted[i] {
      if 0 < i < |rhs| - 1 {
        assert quoted[i] == rhs[1..|rhs| - 1][i - 1];
      }
    }
  }

  /** The reader accepts exactly the grammar, and the entry is determined. */
  lemma ReaderMeetsGrammar(s: string, e: Entry)
    ensures ReadAssignment(s) == Some(e) <==> Denotes(s, e)
  {
    hide IndexOf, ReadValue, Spells, SafeValue;
    var eq := IndexOf(s, '=');
    if Denotes(s, e) {
      NameBeforeEquals(s, e.name);
    }
    if eq < |s| {
      ValueMeetsSpelling(s[eq + 1..], e.value);
    }
  }

  lemma NameBeforeEquals(s: string, name: string)
    requires NameShape(name) && |name| < |s| && s[..|name|] == name && s[|name|] == '='
    ensures IndexOf(s, '=') == |name|
  {
    assert forall i :: 0 <= i < |name| ==> s[i] == name[i];
  }

  // ------------------------------------------------------------------
  // Whole files
  // ------------------------------------------------------------------

  predicate DistinctNames(env: seq<Entry>) {
    forall i, j :: 0 <= i < j < |env| ==> env[i].name != env[j].name
  }

  /** The entries written on the lines, in order; unreadable lines give none. */
  function Written(lines: seq<string>): (env: seq<Entry>)
  {
    if lines == [] then []
    else
      var n := |lines| - 1;
      var s := Strip(lines[n]);
      if Ignored(s) then Written(lines[..n])
      else match ReadAssignment(s)
           case None => Written(lines[..n])
           case Some(e) => Written(lines[..n]) + [e]
  }

  /** Every line is blank, a comment or an assignment, and no name repeats. */
  ghost predicate WellFormed(lines: seq<string>) {
    && (forall l :: l in lines ==> Ignored(Strip(l)) || exists e :: Denotes(Strip(l), e))
    && DistinctNames(Written(lines))
  }

  ghost predicate Accepts(text: string) {
    Utf8Length(text) <= 65536 && WellFormed(SplitLines(text))
  }

  function EnvOf(text: string): seq<Entry> {
    Written(SplitLines(text))
  }

  lemma WrittenPrefix(lines: seq<string>, i: nat)
    requires i < |lines|
    ensures Written(lines[..i + 1])
         == if Ignored(Strip(lines[i])) || ReadAssignment(Strip(lines[i])).None? then Written(lines[..i])
            else Written(lines[..i]) + [ReadAssignment(Strip(lines[i])).value]
  {
    assert lines[..i + 1][..i] == lines[..i];
  }

  lemma {:induction false} WrittenGrows(lines: seq<string>, i: nat)
    requires i <= |lines|
    ensures Written(lines[..i]) <= Written(lines)
    decreases |lines| - i
  {
    if i == |lines| {
      assert lines[..i] == lines;
    } else {
      WrittenPrefix(lines, i);
      WrittenGrows(lines, i + 1);
    }
  }

  predicate Fresh(env: seq<Entry>, name: string) {
    forall k :: 0 <= k < |env| ==> env[k].name != name
  }

  /** A line that cannot be read, or whose name is taken, spoils the file. */
  lemma SpoiledLine(lines: seq<string>, i: nat)
    requires i < |lines| && !Ignored(Strip(lines[i]))
    requires var r := ReadAssignment(Strip(lines[i]));
             r.None? || !Fresh(Written(lines[..i]), r.value.name)
    ensures !WellFormed(lines)
  {
    var s := Strip(lines[i]);
    match ReadAssignment(s)
    case None =>
      forall e ensures !Denotes(s, e) {
        ReaderMeetsGrammar(s, e);
      }
      assert lines[i] in lines;
    case Some(e) =>
      WrittenPrefix(lines, i);
      WrittenGrows(lines, i + 1);
      var before := Written(lines[..i]);
      var k :| 0 <= k < |before| && before[k].name == e.name;
      assert Written(lines)[k] == before[k] && Written(lines)[|before|] == e;
  }

  /** The first `i` lines read cleanly and gave `env`. */
  ghost predicate ReadSoFar(lines: seq<string>, i: nat, env: seq<Entry>) {
    && i <= |lines| && env == Written(lines[..i]) && DistinctNames(env)
    && forall k :: 0 <= k < i ==> Ignored(Strip(lines[k])) || exists e :: Denotes(Strip(lines[k]), e)
  }

  lemma ReadStart(lines: seq<string>)
    ensures ReadSoFar(lines, 0, [])
  {
  }

  lemma ReadStep(lines: seq<string>, i: nat, env: seq<Entry>)
    requires i < |lines| && ReadSoFar(lines, i, env)
    ensures var s := Strip(lines[i]);
            && (Ignored(s) ==> ReadSoFar(lines, i + 1, env))
            && (!Ignored(s) && ReadAssignment(s).Some? && Fresh(env, ReadAssignment(s).value.name) ==>
                  ReadSoFar(lines, i + 1, env + [ReadAssignment(s).value]))
            && (!Ignored(s) && (ReadAssignment(s).None? || !Fresh(env, ReadAssignment(s).value.name)) ==>
                  !WellFormed(lines))
  {
    hide ReadAssignment, Denotes, Strip, Ignored, Written, WellFormed;
    var s := Strip(lines[i]);
    WrittenPrefix(lines, i);
    if !Ignored(s) {
      if ReadAssignment(s).None? || !Fresh(env, ReadAssignment(s).value.name) {
        SpoiledLine(lines, i);
      } else {
        ReaderMeetsGrammar(s, ReadAssignment(s).value);
      }
    }
  }

  lemma ReadEnd(lines: seq<string>, env: seq<Entry>)
    requires ReadSoFar(lines, |lines|, env)
    ensures WellFormed(lines) && env == Written(lines)
  {
    hide Denotes, Strip, Ignored, Written;
    assert lines[..|lines|] == lines;
  }

  lemma IgnoredCases(s: string)
    ensures Ignored(s) <==> s == "" || s[0] == '#'
  {
  }

  method ParseEnv(text: string) returns (r: Result<seq<Entry>>)
    ensures r.Ok? <==> Accepts(text)
    ensures r.Ok? ==> r.value == EnvOf(text)
  {
    hide ReadAssignment, Strip, Ignored, ReadSoFar, Utf8Length, SplitLines, Written, WellFormed, Fresh;
    if Utf8Length(text) > MAX_ENV_BYTES {
      return Refused;
    }
    var env: seq<Entry> := [];
    var lines := SplitLines(text);
    ReadStart(lines);
    var i := 0;
    while i < |lines|
      invariant 0 <= i <= |lines| && ReadSoFar(lines, i, env)
    {
      ReadStep(lines, i, env);
      var line := Strip(lines[i]);
      IgnoredCases(line);
      if line != "" && line[0] != '#' {
        var read := ReadAssignment(line);
        if read.None? || !Fresh(env, read.value.name) {
          return Refused;
        }
        env := env + [read.value];
      }
      i := i + 1;
    }
    ReadEnd(lines, env);
    return Ok(env);
  }

  // ------------------------------------------------------------------
  // The two printers
  // ------------------------------------------------------------------

  function SnapshotLine(e: Entry): string {
    e.name + ("=" + Quoted('"', e.value))
  }

  function Snapshot(env: seq<Entry>): string {
    if env == [] then "" else SnapshotLine(env[0]) + "\n" + Snapshot(env[1..])
  }

  function Records(env: seq<Entry>): seq<string> {
    seq(|env|, i requires 0 <= i < |env| => env[i].name + "=" + env[i].value)
  }

  /** Key, equals sign, value, NUL: what the loader writes to standard output. */
  function NulStream(env: seq<Entry>): string {
    Framed(Records(env), '\0')
  }

  /** How a consumer reads the stream: split at NUL, then at the first equals sign. */
  function ReadNulStream(data: string): seq<Entry> {
    var parts := Unframed(data, '\0');
    seq(|parts|, i requires 0 <= i < |parts| =>
      var eq := IndexOf(parts[i], '=');
      Entry(parts[i][..eq], if eq < |parts[i]| then parts[i][eq + 1..] else ""))
  }

  lemma Reassociate(a: string, b: string, c: string)
    ensures a + (b + c) == (a + b) + c
  {
  }

  method WriteSnapshot(env: seq<Entry>) returns (out: string)
    ensures out == Snapshot(env)
  {
    out := "";
    var i := 0;
    while i < |env|
      invariant 0 <= i <= |env|
      invariant out + Snapshot(env[i..]) == Snapshot(env)
    {
      assert env[i..][1..] == env[i + 1..];
      Reassociate(out, SnapshotLine(env[i]) + "\n", Snapshot(env[i + 1..]));
      out := out + (SnapshotLine(env[i]) + "\n");
      i := i + 1;
    }
    assert env[i..] == [] && out + "" == out;
  }

  // ------------------------------------------------------------------
  // Round trips
  // ------------------------------------------------------------------

  /** What every parsed entry satisfies. */
  predicate Printable(e: Entry) {
    SafeName(e.name) && SafeValue(e.value) && OneLine(e.value)
  }

  predicate AllPrintable(env: seq<Entry>) {
    forall i :: 0 <= i < |env| ==> Printable(env[i])
  }

  lemma ValueWithin(s: string, e: Entry)
    requires OneLine(s) && Denotes(s, e)
    ensures OneLine(e.value)
  {
    var rhs := s[|e.name| + 1..];
    forall i | 0 <= i < |e.value| ensures !IsBreak(e.value[i]) {
      var k := if rhs == e.value then i else i + 1;
      assert e.value[i] == rhs[k] == s[|e.name| + 1 + k];
    }
  }

  lemma {:induction false} WrittenIsPrintable(lines: seq<string>)
    requires forall l :: l in lines ==> OneLine(l)
    ensures AllPrintable(Written(lines))
  {
    if lines == [] {
    } else {
      var n := |lines| - 1;
      WrittenIsPrintable(lines[..n]);
      var s := Strip(lines[n]);
      assert lines[n] in lines;
      LStripOneLine(lines[n]);
      RStripOneLine(LStrip(lines[n]));
      if !Ignored(s) && ReadAssignment(s).Some? {
        var e := ReadAssignment(s).value;
        ReaderMeetsGrammar(s, e);
        ValueWithin(s, e);
      }
    }
  }

  lemma SnapshotLineIsOneLine(e: Entry)
    requires Printable(e)
    ensures OneLine(SnapshotLine(e)) && Strip(SnapshotLine(e)) == SnapshotLine(e)
    ensures !Ignored(SnapshotLine(e)) && Denotes(SnapshotLine(e), e)
  {
    var s := SnapshotLine(e);
    assert s[0] == e.name[0] && s[|s| - 1] == '"';
    assert s[..|e.name|] == e.name && s[|e.name| + 1..] == Quoted('"', e.value);
    forall i | 0 <= i < |s| ensures !IsBreak(s[i]) {
      if i < |e.name| {
        assert s[i] == e.name[i];
      } else if |e.name| + 2 <= i < |s| - 1 {
        assert s[i] == e.value[i - |e.name| - 2];
      }
    }
  }

  lemma {:induction false} WrittenCons(line: string, lines: seq<string>)
    ensures Written([line] + lines) == Written([line]) + Written(lines)
  {
    var all := [line] + lines;
    if lines == [] {
      assert all == [line];
    } else {
      var n := |lines| - 1;
      assert all[..n + 1] == [line] + lines[..n];
      assert all[n + 1] == lines[n];
      WrittenCons(line, lines[..n]);
    }
  }

  lemma WrittenOne(line: string, e: Entry)
    requires !Ignored(Strip(line)) && Denotes(Strip(line), e)
    ensures Written([line]) == [e]
  {
    ReaderMeetsGrammar(Strip(line), e);
    hide Denotes, Strip, Ignored, ReadAssignment;
    assert [line][..0] == [];
    assert Written([line][..0]) == [];
  }

  lemma SnapshotCons(env: seq<Entry>)
    requires env != []
    ensures Snapshot(env) == SnapshotLine(env[0]) + "\n" + Snapshot(env[1..])
  {
  }

  lemma EmptySnapshot()
    ensures SplitLines(Snapshot([])) == [] && Written([]) == []
  {
  }

  lemma {:induction false} SnapshotLines(env: seq<Entry>)
    requires AllPrintable(env)
    ensures Written(SplitLines(Snapshot(env))) == env
    ensures forall l :: l in SplitLines(Snapshot(env)) ==> exists e :: Denotes(Strip(l), e)
  {
    hide Denotes, Strip, Ignored, SnapshotLine, OneLine, Printable, Written, SplitLines, Snapshot;
    if env == [] {
      EmptySnapshot();
    } else {
      var line := SnapshotLine(env[0]);
      SnapshotLineIsOneLine(env[0]);
      SnapshotCons(env);
      SplitLinesCons(line, Snapshot(env[1..]));
      SnapshotLines(env[1..]);
      WrittenCons(line, SplitLines(Snapshot(env[1..])));
      WrittenOne(line, env[0]);
      assert [env[0]] + env[1..] == env;
    }
  }

  /** Printing a parsed environment and parsing it again gives the same ordered
      map, exactly when the printed text still fits the size limit. */
  lemma SnapshotRoundTrip(text: string)
    requires Accepts(text)
    ensures Accepts(Snapshot(EnvOf(text))) <==> Utf8Length(Snapshot(EnvOf(text))) <= 65536
    ensures EnvOf(Snapshot(EnvOf(text))) == EnvOf(text)
  {
    WrittenIsPrintable(SplitLines(text));
    SnapshotLines(EnvOf(text));
  }

  /** The NUL stream gives back the same ordered map, for every parsed text. */
  lemma NulStreamRoundTrip(text: string)
    requires Accepts(text)
    ensures ReadNulStream(NulStream(EnvOf(text))) == EnvOf(text)
  {
    var env := EnvOf(text);
    WrittenIsPrintable(SplitLines(text));
    var records := Records(env);
    forall i | 0 <= i < |records| ensures Free(records[i], '\0') {
      var e := env[i];
      assert Printable(e);
      forall k | 0 <= k < |records[i]| ensures records[i][k] != '\0' {
        if k < |e.name| {
          assert records[i][k] == e.name[k];
        } else if k > |e.name| {
          assert records[i][k] == e.value[k - |e.name| - 1];
          assert SafeChar(e.value[k - |e.name| - 1]);
        }
      }
    }
    UnframeFramed(records, '\0');
    forall i | 0 <= i < |env| ensures ReadNulStream(NulStream(env))[i] == env[i] {
      assert Printable(env[i]);
      NameBeforeEquals(records[i], env[i].name);
      assert records[i][..|env[i].name|] == env[i].name && records[i][|env[i].name| + 1..] == env[i].value;
    }
  }

  // ------------------------------------------------------------------
  // The size limit really can be crossed by printing
  // ------------------------------------------------------------------

  function Xs(n: nat): (s: string)
    ensures |s| == n && forall i :: 0 <= i < n ==> s[i] == 'x'
  {
    if n == 0 then "" else "x" + Xs(n - 1)
  }

  lemma {:induction false} XsWidth(n: nat)
    ensures Utf8Length(Xs(n)) == n
  {
    if n == 0 {
    } else {
      XsWidth(n - 1);
    }
  }

  lemma OneCharNameIsSafe()
    ensures SafeName("A")
  {
    forall p | p in DANGEROUS_PREFIXES ensures !(p <= "A") {
      assert |p| >= 3;
    }
    forall d | d in DANGEROUS ensures d != "A" {
      assert |d| >= 3;
    }
  }

  lemma WholeLine(text: string)
    requires text != "" && OneLine(text)
    ensures SplitLines(text) == [text]
  {
    LineEndIs(text, "");
    assert text + "" == text;
  }

  lemma AssignmentText(e: Entry)
    requires Printable(e) && NoSpace(e.value)
    ensures var text := e.name + ("=" + e.value);
            && OneLine(text) && Strip(text) == text
            && text != "" && !Ignored(text) && Denotes(text, e)
  {
    var text := e.name + ("=" + e.value);
    assert text[..|e.name|] == e.name && text[|e.name| + 1..] == e.value;
    forall i | 0 <= i < |text| ensures !IsBreak(text[i]) && !IsSpace(text[i]) {
      if i < |e.name| {
        assert text[i] == e.name[i];
      } else if i > |e.name| {
        assert text[i] == e.value[i - |e.name| - 1];
      }
    }
    assert text[0] == e.name[0];
  }

  lemma SingleAssignment(e: Entry)
    requires Printable(e) && NoSpace(e.value)
    ensures EnvOf(e.name + ("=" + e.value)) == [e] && WellFormed(SplitLines(e.name + ("=" + e.value)))
  {
    hide SplitLines, OneLine, Strip, Ignored, Denotes, Printable, NoSpace, Written;
    var text := e.name + ("=" + e.value);
    AssignmentText(e);
    WholeLine(text);
    WrittenOne(text, e);
  }

  /** One unquoted value of `n` characters fits up to 65534 of them, but its
      snapshot is three bytes longer: the last three sizes do not come back. */
  lemma SnapshotCanOverflow(n: nat)
    requires n + 2 <= 65536
    ensures var text := "A" + ("=" + Xs(n));
            Accepts(text) && EnvOf(text) == [Entry("A", Xs(n))]
            && (Accepts(Snapshot(EnvOf(text))) <==> n + 5 <= 65536)
  {
    var e := Entry("A", Xs(n));
    OneCharNameIsSafe();
    SingleAssignment(e);
    Widths(Xs(n));
    XsWidth(n);
    SnapshotRoundTrip("A" + ("=" + Xs(n)));
    assert Snapshot([e]) == SnapshotLine(e) + "\n" + "";
    assert Snapshot([e]) == "A" + ("=" + Quoted('"', Xs(n))) + "\n";
  }

  lemma Widths(v: string)
    ensures Utf8Length("A" + ("=" + v)) == 2 + Utf8Length(v)
    ensures Utf8Length("A" + ("=" + Quoted('"', v)) + "\n") == 5 + Utf8Length(v)
  {
    Utf8Append("A", "=" + v);
    Utf8Append("=", v);
    Utf8Append("A" + ("=" + Quoted('"', v)), "\n");
    Utf8Append("A", "=" + Quoted('"', v));
    Utf8Append("=", Quoted('"', v));
    Utf8Append(['"'] + v, ['"']);
    Utf8Append(['"'], v);
  }
}

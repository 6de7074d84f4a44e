/** The Python string operations that the modelled scripts rely on. */
module PyText {
  import opened Tally

  predicate Free(s: string, c: char) {
    c !in s
  }

  /** `n` lower-case hexadecimal digits. */
  predicate IsHex(s: string, n: nat)
  {
    |s| == n && forall i :: 0 <= i < n ==> '0' <= s[i] <= '9' || 'a' <= s[i] <= 'f'
  }

  /** The digits one by one. */
  lemma HexDigits(s: string, n: nat)
    ensures IsHex(s, n) <==> |s| == n && forall c :: c in s ==> c in "0123456789abcdef"
  {
    var digits := "0123456789abcdef";
    forall c: char ensures c in digits <==> '0' <= c <= '9' || 'a' <= c <= 'f' {
      if '0' <= c <= '9' {
        assert digits[c as int - '0' as int] == c;
      } else if 'a' <= c <= 'f' {
        assert digits[c as int - 'a' as int + 10] == c;
      }
    }
    assert forall i :: 0 <= i < |s| ==> s[i] in s;
  }

  predicate IsAlnum(c: char) {
    'A' <= c <= 'Z' || 'a' <= c <= 'z' || '0' <= c <= '9'
  }

  /** The letters and digits one by one. */
  ghost predicate ListedAlnum(c: char) {
    c in "ABCDEFGHIJKLMNOPQRSTUVWXYZ" || c in "abcdefghijklmnopqrstuvwxyz" || c in "0123456789"
  }

  lemma UpperListed(c: char)
    ensures c in "ABCDEFGHIJKLMNOPQRSTUVWXYZ" <==> 'A' <= c <= 'Z'
  {
    var listed := "ABCDEFGHIJKLMNOPQRSTUVWXYZ";
    if 'A' <= c <= 'Z' {
      assert listed[c as int - 'A' as int] == c;
    }
  }

  lemma LowerListed(c: char)
    ensures c in "abcdefghijklmnopqrstuvwxyz" <==> 'a' <= c <= 'z'
  {
    var listed := "abcdefghijklmnopqrstuvwxyz";
    if 'a' <= c <= 'z' {
      assert listed[c as int - 'a' as int] == c;
    }
  }

  lemma DigitListed(c: char)
    ensures c in "0123456789" <==> '0' <= c <= '9'
  {
    var listed := "0123456789";
    if '0' <= c <= '9' {
      assert listed[c as int - '0' as int] == c;
    }
  }

  lemma AlnumListed(c: char)
    ensures IsAlnum(c) <==> ListedAlnum(c)
  {
    UpperListed(c);
    LowerListed(c);
    DigitListed(c);
  }

  predicate AllFree(parts: seq<string>, c: char) {
    forall p :: p in parts ==> Free(p, c)
  }

  /** `s.split(c)`: always at least one part. */
  function SplitOn(s: string, c: char): (parts: seq<string>)
    ensures |parts| >= 1
    ensures AllFree(parts, c)
  {
    if s == "" then [""]
    else
      var rest := SplitOn(s[1..], c);
      if s[0] == c then [""] + rest
      else
        assert Free(rest[0], c) && AllFree(rest[1..], c);
        [[s[0]] + rest[0]] + rest[1..]
  }

  /** `c.join(parts)`. */
  function JoinWith(parts: seq<string>, c: char): string {
    if parts == [] then ""
    else if |parts| == 1 then parts[0]
    else parts[0] + [c] + JoinWith(parts[1..], c)
  }

  /** Every part followed by one terminator. */
  function Framed(parts: seq<string>, c: char): string {
    if parts == [] then "" else parts[0] + [c] + Framed(parts[1..], c)
  }

  lemma {:induction false} SplitAtFirst(a: string, c: char, rest: string)
    requires Free(a, c)
    ensures SplitOn(a + [c] + rest, c) == [a] + SplitOn(rest, c)
  {
    if a == "" {
      assert a + [c] + rest == [c] + rest;
    } else {
      var s := a + [c] + rest;
      assert s[1..] == a[1..] + [c] + rest;
      assert forall x :: x in a[1..] ==> x in a;
      SplitAtFirst(a[1..], c, rest);
      assert [a[0]] + a[1..] == a;
    }
  }

  lemma {:induction false} SplitWhole(a: string, c: char)
    requires Free(a, c)
    ensures SplitOn(a, c) == [a]
  {
    if a == "" {
    } else {
      assert forall x :: x in a[1..] ==> x in a;
      SplitWhole(a[1..], c);
      assert [a[0]] + a[1..] == a;
    }
  }

  /** Splitting undoes joining for separator-free parts. */
  lemma {:induction false} SplitJoin(parts: seq<string>, c: char)
    requires parts != [] && AllFree(parts, c)
    ensures SplitOn(JoinWith(parts, c), c) == parts
  {
    if |parts| == 1 {
      SplitWhole(parts[0], c);
    } else {
      SplitAtFirst(parts[0], c, JoinWith(parts[1..], c));
      SplitJoin(parts[1..], c);
    }
  }

  /** Joining undoes splitting for every string. */
  lemma {:induction false} JoinSplit(s: string, c: char)
    ensures JoinWith(SplitOn(s, c), c) == s
  {
    if s == "" {
    } else {
      var rest := SplitOn(s[1..], c);
      JoinSplit(s[1..], c);
      if s[0] == c {
        assert ([""] + rest)[1..] == rest;
      } else {
        var parts := [[s[0]] + rest[0]] + rest[1..];
        assert parts[1..] == rest[1..];
      }
    }
  }

  /** Terminated records are the joined records plus one final terminator. */
  lemma {:induction false} FramedIsJoined(parts: seq<string>, c: char)
    requires parts != []
    ensures Framed(parts, c) == JoinWith(parts, c) + [c]
  {
    if |parts| == 1 {
      assert Framed(parts[1..], c) == "";
    } else {
      FramedIsJoined(parts[1..], c);
    }
  }

  /** Reads back terminated records: `data[:-1].split(c)`, nothing for no data. */
  function Unframed(data: string, c: char): seq<string> {
    if data == "" then [] else SplitOn(data[..|data| - 1], c)
  }

  lemma UnframeFramed(parts: seq<string>, c: char)
    requires AllFree(parts, c)
    ensures Unframed(Framed(parts, c), c) == parts
    ensures parts != [] ==> Framed(parts, c) != "" && Framed(parts, c)[|Framed(parts, c)| - 1] == c
  {
    if parts != [] {
      FramedIsJoined(parts, c);
      SplitJoin(parts, c);
      var data := Framed(parts, c);
      assert data[..|data| - 1] == JoinWith(parts, c);
    }
  }

  /** Position of the first `c`, or the length when there is none. */
  function IndexOf(s: string, c: char): (i: nat)
    ensures i <= |s|
    ensures i < |s| ==> s[i] == c
    ensures forall k :: 0 <= k < i ==> s[k] != c
  {
    if s == "" || s[0] == c then 0 else 1 + IndexOf(s[1..], c)
  }

  /** Characters for which `str.isspace` holds. */
  predicate IsSpace(c: char) {
    var n := c as int;
    0x09 <= n <= 0x0d || 0x1c <= n <= 0x20 || n == 0x85 || n == 0xa0 || n == 0x1680
    || 0x2000 <= n <= 0x200a || n == 0x2028 || n == 0x2029 || n == 0x202f || n == 0x205f || n == 0x3000
  }

  /** Characters at which `str.splitlines` ends a line. */
  predicate IsBreak(c: char) {
    var n := c as int;
    0x0a <= n <= 0x0d || 0x1c <= n <= 0x1e || n == 0x85 || n == 0x2028 || n == 0x2029
  }

  /** The code points of white space one by one; ten of them also end a line. */
  lemma SpacesListed(c: char)
    ensures IsSpace(c)
            <==> c as int in {9, 10, 11, 12, 13, 28, 29, 30, 31, 32, 133, 160, 5760, 8192, 8193, 8194, 8195, 8196,
                              8197, 8198, 8199, 8200, 8201, 8202, 8232, 8233, 8239, 8287, 12288}
    ensures IsBreak(c) <==> c as int in {10, 11, 12, 13, 28, 29, 30, 133, 8232, 8233}
  {
  }

  predicate OneLine(s: string) {
    forall i :: 0 <= i < |s| ==> !IsBreak(s[i])
  }

  function LStrip(s: string): string {
    if s != "" && IsSpace(s[0]) then LStrip(s[1..]) else s
  }

  function RStrip(s: string): string {
    if s != "" && IsSpace(s[|s| - 1]) then RStrip(s[..|s| - 1]) else s
  }

  /** `s.strip()`. */
  function Strip(s: string): string {
    RStrip(LStrip(s))
  }

  ghost predicate AllSpace(s: string) {
    forall i :: 0 <= i < |s| ==> IsSpace(s[i])
  }

  lemma {:induction false} LStripCuts(s: string) returns (cut: string)
    ensures s == cut + LStrip(s) && AllSpace(cut)
    ensures LStrip(s) == "" || !IsSpace(LStrip(s)[0])
  {
    if s == "" || !IsSpace(s[0]) {
      cut := "";
    } else {
      cut := LStripCuts(s[1..]);
      cut := [s[0]] + cut;
    }
  }

  lemma {:induction false} RStripCuts(s: string) returns (cut: string)
    ensures s == RStrip(s) + cut && AllSpace(cut)
    ensures RStrip(s) == "" || !IsSpace(RStrip(s)[|RStrip(s)| - 1])
  {
    var n := |s| - 1;
    if s == "" || !IsSpace(s[n]) {
      cut := "";
    } else {
      cut := RStripCuts(s[..n]);
      cut := cut + [s[n]];
    }
  }

  /** Only white space is cut, at both ends, and none is left there. */
  lemma StripIsMiddle(s: string) returns (before: string, after: string)
    ensures s == before + Strip(s) + after && AllSpace(before) && AllSpace(after)
    ensures Strip(s) == "" || (!IsSpace(Strip(s)[0]) && !IsSpace(Strip(s)[|Strip(s)| - 1]))
  {
    before := LStripCuts(s);
    after := RStripCuts(LStrip(s));
    hide IsSpace, LStrip, RStrip;
    assert Strip(s) != "" ==> Strip(s)[0] == LStrip(s)[0];
  }

  lemma {:induction false} LStripOneLine(s: string)
    requires OneLine(s)
    ensures OneLine(LStrip(s))
  {
    if s == "" || !IsSpace(s[0]) {
    } else {
      LStripOneLine(s[1..]);
    }
  }

  lemma {:induction false} RStripOneLine(s: string)
    requires OneLine(s)
    ensures OneLine(RStrip(s))
  {
    if s == "" || !IsSpace(s[|s| - 1]) {
    } else {
      RStripOneLine(s[..|s| - 1]);
    }
  }

  /** Length of the first line, without its break. */
  function LineEnd(s: string): (n: nat)
    ensures n <= |s|
    ensures OneLine(s[..n])
    ensures n < |s| ==> IsBreak(s[n])
  {
    if s == "" || IsBreak(s[0]) then 0 else
      var n := LineEnd(s[1..]);
      assert s[..n + 1] == [s[0]] + s[1..][..n];
      n + 1
  }

  /** The width of the break at position `n`. */
  function BreakWidth(s: string, n: nat): (w: nat)
    requires n < |s| && IsBreak(s[n])
    ensures n + w <= |s|
  {
    if s[n] == '\r' && n + 1 < |s| && s[n + 1] == '\n' then 2 else 1
  }

  /** `s.splitlines()`; a carriage return and line feed pair is one break. */
  function SplitLines(s: string): (lines: seq<string>)
    ensures forall l :: l in lines ==> OneLine(l)
    decreases |s|
  {
    if s == "" then []
    else
      var n := LineEnd(s);
      if n == |s| then assert s[..n] == s; [s]
      else
        [s[..n]] + SplitLines(s[n + BreakWidth(s, n)..])
  }

  lemma {:induction false} LineEndIs(a: string, rest: string)
    requires OneLine(a)
    requires rest != "" ==> IsBreak(rest[0])
    ensures LineEnd(a + rest) == |a|
  {
    if a == "" {
      assert a + rest == rest;
    } else {
      assert (a + rest)[1..] == a[1..] + rest;
      LineEndIs(a[1..], rest);
    }
  }

  /** One break-free line, a line feed, and whatever follows. */
  lemma SplitLinesCons(a: string, rest: string)
    requires OneLine(a)
    ensures SplitLines(a + "\n" + rest) == [a] + SplitLines(rest)
  {
    var s := a + "\n" + rest;
    assert s == a + ("\n" + rest);
    LineEndIs(a, "\n" + rest);
    assert s[|a|] == '\n';
    assert s[..|a|] == a;
    assert s[|a| + 1..] == rest;
  }

  /** The lines with their breaks put back. */
  ghost function Glue(lines: seq<string>, breaks: seq<string>): string
    requires |breaks| == |lines|
  {
    if lines == [] then "" else lines[0] + breaks[0] + Glue(lines[1..], breaks[1..])
  }

  /** Line `i` ends with one break, a carriage return and a line feed being one, or is
      the nonempty rest of the text. */
  ghost predicate EndsLine(lines: seq<string>, breaks: seq<string>, i: nat)
    requires |breaks| == |lines| && i < |lines|
  {
    || (breaks[i] == "" && i == |lines| - 1 && lines[i] != "")
    || breaks[i] == "\r\n"
    || (&& |breaks[i]| == 1 && IsBreak(breaks[i][0])
        && !(breaks[i] == "\r" && "\n" <= Glue(lines[i + 1..], breaks[i + 1..])))
  }

  lemma GlueCons(line: string, end: string, lines: seq<string>, breaks: seq<string>)
    requires |breaks| == |lines|
    ensures Glue([line] + lines, [end] + breaks) == line + end + Glue(lines, breaks)
    ensures forall i :: 0 <= i < |lines| ==>
              (EndsLine([line] + lines, [end] + breaks, i + 1) <==> EndsLine(lines, breaks, i))
  {
    assert ([line] + lines)[1..] == lines && ([end] + breaks)[1..] == breaks;
    forall i | 0 <= i < |lines|
      ensures EndsLine([line] + lines, [end] + breaks, i + 1) <==> EndsLine(lines, breaks, i)
    {
      assert ([line] + lines)[i + 2..] == lines[i + 1..] && ([end] + breaks)[i + 2..] == breaks[i + 1..];
    }
  }


  lemma OneBreak(line: string, s: string, n: nat, lines: seq<string>, breaks: seq<string>)
    requires n < |s| && IsBreak(s[n]) && |breaks| == |lines|
    requires Glue(lines, breaks) == s[n + BreakWidth(s, n)..]
    ensures EndsLine([line] + lines, [s[n..n + BreakWidth(s, n)]] + breaks, 0)
  {
    var w := BreakWidth(s, n);
    var end, rest := s[n..n + w], s[n + w..];
    assert ([line] + lines)[1..] == lines && ([end] + breaks)[1..] == breaks;
    if w == 2 {
      assert end == "\r\n";
    } else {
      assert end == [s[n]];
      assert rest != "" ==> rest[0] == s[n + 1];
    }
  }

  /** The breaks that were cut: with one after each line the lines are the text. */
  ghost predicate Cut(lines: seq<string>, breaks: seq<string>, s: string) {
    && |breaks| == |lines| && Glue(lines, breaks) == s
    && forall i :: 0 <= i < |breaks| ==> EndsLine(lines, breaks, i)
  }

  lemma CutCons(s: string, n: nat, lines: seq<string>, breaks: seq<string>)
    requires n < |s| && IsBreak(s[n]) && Cut(lines, breaks, s[n + BreakWidth(s, n)..])
    ensures Cut([s[..n]] + lines, [s[n..n + BreakWidth(s, n)]] + breaks, s)
  {
    var end := s[n..n + BreakWidth(s, n)];
    GlueCons(s[..n], end, lines, breaks);
    OneBreak(s[..n], s, n, lines, breaks);
    hide Glue, EndsLine, BreakWidth;
    assert s == s[..n] + end + s[n + BreakWidth(s, n)..];
    forall i | 0 <= i <= |breaks| ensures EndsLine([s[..n]] + lines, [end] + breaks, i) {
      if i > 0 {
        assert EndsLine(lines, breaks, i - 1);
      }
    }
  }

  lemma SplitAtBreak(s: string)
    requires LineEnd(s) < |s|
    ensures var n := LineEnd(s);
            IsBreak(s[n]) && SplitLines(s) == [s[..n]] + SplitLines(s[n + BreakWidth(s, n)..])
  {
    hide LineEnd, IsBreak, BreakWidth, OneLine;
  }

  lemma CutOne(s: string)
    ensures Cut([], [], "") && (s != "" ==> Cut([s], [""], s))
  {
    assert [s][1..] == [] && [""][1..] == [] && s + "" + "" == s;
    hide IsBreak;
  }

  lemma LastLine(s: string)
    requires LineEnd(s) == |s|
    ensures SplitLines(s) == if s == "" then [] else [s]
  {
  }

  /** Splitting loses nothing. */
  lemma {:induction false} SplitLinesCut(s: string) returns (breaks: seq<string>)
    ensures Cut(SplitLines(s), breaks, s)
    decreases |s|
  {
    var n := LineEnd(s);
    if n == |s| {
      LastLine(s);
      CutOne(s);
      hide *;
      breaks := if s == "" then [] else [""];
    } else {
      SplitAtBreak(s);
      hide *;
      var rest := s[n + BreakWidth(s, n)..];
      var later := SplitLinesCut(rest);
      CutCons(s, n, SplitLines(rest), later);
      breaks := [s[n..n + BreakWidth(s, n)]] + later;
    }
  }

  /** Bytes of one character in UTF-8 (section 3 of RFC 3629). */
  function Utf8Width(c: char): nat {
    var n := c as int;
    if n < 0x80 then 1 else if n < 0x800 then 2 else if n < 0x10000 then 3 else 4
  }

  /** A code point takes the fewest bytes whose 7, 11, 16 or 21 payload bits hold it. */
  lemma WidthIsLeast(c: char, w: nat)
    requires 1 <= w <= 4
    ensures Utf8Width(c) <= w <==> c as int < [128, 2048, 65536, 2097152][w - 1]
    ensures 1 <= Utf8Width(c) <= 4
  {
  }

  /** `len(s.encode("utf-8"))`. */
  function Utf8Length(s: string): nat {
    if s == "" then 0 else Utf8Width(s[0]) + Utf8Length(s[1..])
  }

  lemma {:induction false} Utf8Append(s: string, t: string)
    ensures Utf8Length(s + t) == Utf8Length(s) + Utf8Length(t)
  {
    if s == "" {
      assert s + t == t;
    } else {
      assert (s + t)[1..] == s[1..] + t;
      Utf8Append(s[1..], t);
    }
  }

  /** `str` order: by code point at the first difference, a proper prefix first. */
  predicate LexLess(s: string, t: string) {
    if t == "" then false
    else if s == "" then true
    else if s[0] != t[0] then s[0] < t[0]
    else LexLess(s[1..], t[1..])
  }

  lemma {:induction false} LessAt(a: string, b: string, k: nat)
    requires k < |a| && k < |b| && a[..k] == b[..k] && a[k] < b[k]
    ensures LexLess(a, b)
  {
    if k == 0 {
    } else {
      assert a[0] == a[..k][0] == b[0];
      assert a[1..][..k - 1] == a[..k][1..] && b[1..][..k - 1] == b[..k][1..];
      LessAt(a[1..], b[1..], k - 1);
    }
  }

  lemma {:induction false} LexTotal(s: string, t: string)
    ensures LexLess(s, t) || LexLess(t, s) || s == t
  {
    if s == "" || t == "" || s[0] != t[0] {
    } else {
      LexTotal(s[1..], t[1..]);
      assert s == [s[0]] + s[1..] && t == [t[0]] + t[1..];
    }
  }

  lemma {:induction false} LexTransitive(s: string, t: string, u: string)
    requires LexLess(s, t) && LexLess(t, u)
    ensures LexLess(s, u)
  {
    if s == "" || s[0] != t[0] || t[0] != u[0] {
    } else {
      LexTransitive(s[1..], t[1..], u[1..]);
    }
  }

  lemma {:induction false} LexIrreflexive(s: string)
    ensures !LexLess(s, s)
  {
    if s == "" {
    } else {
      LexIrreflexive(s[1..]);
    }
  }

  // ------------------------------------------------------------------
  // Lists of distinct strings
  // ------------------------------------------------------------------

  function Items(s: seq<string>): (r: set<string>)
    ensures forall x :: x in r <==> x in s
  {
    set x | x in s
  }

  lemma {:induction false} ItemsCount(s: seq<string>)
    ensures |Items(s)| <= |s|
    ensures Distinct(s) <==> |Items(s)| == |s|
  {
    if s == [] {
    } else {
      var n := |s| - 1;
      ItemsCount(s[..n]);
      assert s == s[..n] + [s[n]];
      assert Items(s) == Items(s[..n]) + {s[n]};
      if s[n] in Items(s[..n]) {
        assert Items(s) == Items(s[..n]);
      }
    }
  }

  ghost predicate Increasing(s: seq<string>) {
    forall i, j :: 0 <= i < j < |s| ==> LexLess(s[i], s[j])
  }

  function InsertSorted(x: string, s: seq<string>): seq<string> {
    if s == [] || LexLess(x, s[0]) then [x] + s else [s[0]] + InsertSorted(x, s[1..])
  }

  /** `sorted(s)`. */
  function Sorted(s: seq<string>): seq<string> {
    if s == [] then [] else InsertSorted(s[0], Sorted(s[1..]))
  }

  lemma {:induction false} InsertKeepsOrder(x: string, s: seq<string>)
    requires Increasing(s) && x !in s
    ensures Increasing(InsertSorted(x, s)) && Items(InsertSorted(x, s)) == Items(s) + {x}
  {
    var r := InsertSorted(x, s);
    if s == [] {
    } else if LexLess(x, s[0]) {
      forall j | 0 <= j < |s| ensures LexLess(x, s[j]) {
        if j > 0 { LexTransitive(x, s[0], s[j]); }
      }
    } else {
      var tail := InsertSorted(x, s[1..]);
      InsertKeepsOrder(x, s[1..]);
      assert s == [s[0]] + s[1..];
      LexTotal(x, s[0]);
      forall j | 0 <= j < |tail| ensures LexLess(s[0], tail[j]) {
        assert tail[j] in Items(tail);
        if tail[j] != x {
          var k :| 0 <= k < |s[1..]| && s[1..][k] == tail[j];
          assert s[k + 1] == tail[j];
        }
      }
    }
  }

  /** Sorting a list without repeats gives the increasing list of the same items. */
  lemma {:induction false} SortedFacts(s: seq<string>)
    requires Distinct(s)
    ensures Increasing(Sorted(s)) && Items(Sorted(s)) == Items(s)
  {
    if s == [] {
    } else {
      SortedFacts(s[1..]);
      assert s == [s[0]] + s[1..];
      assert s[0] !in s[1..];
      assert s[0] !in Items(Sorted(s[1..]));
      InsertKeepsOrder(s[0], Sorted(s[1..]));
    }
  }

  /** A set of strings has one increasing list. */
  lemma {:induction false} IncreasingIsUnique(s: seq<string>, t: seq<string>)
    requires Increasing(s) && Increasing(t) && Items(s) == Items(t)
    ensures s == t
  {
    if s == [] || t == [] {
      EmptyItems(s);
      EmptyItems(t);
    } else {
      assert s[0] in Items(t) && t[0] in Items(s);
      var i :| 0 <= i < |t| && t[i] == s[0];
      var j :| 0 <= j < |s| && s[j] == t[0];
      if i > 0 && j > 0 {
        LexTransitive(s[0], s[j], s[0]);
        LexIrreflexive(s[0]);
        assert false;
      }
      HeadApart(s);
      HeadApart(t);
      IncreasingIsUnique(s[1..], t[1..]);
    }
  }

  lemma EmptyItems(s: seq<string>)
    ensures Items(s) == {} <==> s == []
  {
    if s != [] {
      assert s[0] in Items(s);
    }
  }

  lemma HeadApart(s: seq<string>)
    requires s != [] && Increasing(s)
    ensures Items(s[1..]) == Items(s) - {s[0]}
  {
    LexIrreflexive(s[0]);
    assert s == [s[0]] + s[1..];
  }

  // ------------------------------------------------------------------
  // Decimal numbers
  // ------------------------------------------------------------------

  predicate Digits(s: string) {
    s != "" && forall i :: 0 <= i < |s| ==> '0' <= s[i] <= '9'
  }

  function DecimalValue(s: string): nat
    requires forall i :: 0 <= i < |s| ==> '0' <= s[i] <= '9'
  {
    if s == "" then 0 else 10 * DecimalValue(s[..|s| - 1]) + (s[|s| - 1] as int - '0' as int)
  }

  ghost function DigitChar(d: nat): char
    requires d < 10
  {
    "0123456789"[d]
  }

  /** A number printed without leading zeros. */
  ghost function Decimal(n: nat): string {
    if n < 10 then [DigitChar(n)] else Decimal(n / 10) + [DigitChar(n % 10)]
  }

  ghost function Zeros(n: nat): (s: string)
    ensures |s| == n
  {
    if n == 0 then "" else Zeros(n - 1) + "0"
  }

  /** `s` prints `n`, with any number of leading zeros. */
  ghost predicate Prints(s: string, n: nat) {
    exists z: nat :: s == Zeros(z) + Decimal(n)
  }

  lemma DigitAt(d: nat)
    requires d < 10
    ensures '0' <= DigitChar(d) <= '9' && DigitChar(d) as int - '0' as int == d
  {
  }

  lemma DigitOf(c: char)
    requires '0' <= c <= '9'
    ensures DigitChar(c as int - '0' as int) == c
  {
  }

  lemma DecimalPush(s: string, d: nat)
    requires d < 10 && (s == "" || Digits(s))
    ensures Digits(s + [DigitChar(d)])
    ensures DecimalValue(s + [DigitChar(d)]) == 10 * DecimalValue(s) + d
  {
    DigitAt(d);
    assert (s + [DigitChar(d)])[..|s|] == s;
  }

  lemma {:induction false} ZerosAreDigits(z: nat)
    ensures (Zeros(z) == "" || Digits(Zeros(z))) && DecimalValue(Zeros(z)) == 0
  {
    if z == 0 {
    } else {
      ZerosAreDigits(z - 1);
      DecimalPush(Zeros(z - 1), 0);
      assert [DigitChar(0)] == "0";
    }
  }

  lemma {:induction false} PrintedIsRead(z: nat, n: nat)
    ensures Digits(Zeros(z) + Decimal(n)) && DecimalValue(Zeros(z) + Decimal(n)) == n
  {
    if n < 10 {
      ZerosAreDigits(z);
      DecimalPush(Zeros(z), n);
    } else {
      PrintedIsRead(z, n / 10);
      DecimalPush(Zeros(z) + Decimal(n / 10), n % 10);
      assert Zeros(z) + Decimal(n) == (Zeros(z) + Decimal(n / 10)) + [DigitChar(n % 10)];
    }
  }

  lemma PrintsPush(s: string, n: nat, d: nat)
    requires d < 10 && Prints(s, n)
    ensures Prints(s + [DigitChar(d)], 10 * n + d)
  {
    var z: nat :| s == Zeros(z) + Decimal(n);
    var c := [DigitChar(d)];
    if n == 0 {
      assert Decimal(0) == "0" && Zeros(z + 1) == s;
      assert s + c == Zeros(z + 1) + Decimal(d);
    } else {
      assert (10 * n + d) / 10 == n && (10 * n + d) % 10 == d;
      assert Decimal(10 * n + d) == Decimal(n) + c;
      assert s + c == Zeros(z) + Decimal(10 * n + d);
    }
  }

  lemma PrintsDigit(d: nat)
    requires d < 10
    ensures Prints([DigitChar(d)], d)
  {
    assert [DigitChar(d)] == Zeros(0) + Decimal(d);
  }

  lemma DigitsPop(s: string) returns (d: nat)
    requires Digits(s)
    ensures d < 10 && s == s[..|s| - 1] + [DigitChar(d)]
    ensures DecimalValue(s) == 10 * DecimalValue(s[..|s| - 1]) + d
    ensures s[..|s| - 1] == "" || Digits(s[..|s| - 1])
  {
    DigitOf(s[|s| - 1]);
    d := s[|s| - 1] as int - '0' as int;
  }

  lemma {:induction false} ReadIsPrinted(s: string)
    requires Digits(s)
    ensures Prints(s, DecimalValue(s))
  {
    var front := s[..|s| - 1];
    var d := DigitsPop(s);
    hide Prints, DigitChar, Digits, DecimalValue;
    if front == "" {
      assert s == [DigitChar(d)];
      PrintsDigit(d);
    } else {
      ReadIsPrinted(front);
      PrintsPush(front, DecimalValue(front), d);
    }
  }

  /** Reading decimal digits inverts printing them. */
  lemma DigitsPrint(s: string, n: nat)
    ensures Digits(s) && DecimalValue(s) == n <==> Prints(s, n)
  {
    if Digits(s) && DecimalValue(s) == n {
      ReadIsPrinted(s);
    }
    if Prints(s, n) {
      var z: nat :| s == Zeros(z) + Decimal(n);
      PrintedIsRead(z, n);
    }
  }
}

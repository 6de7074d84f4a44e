/** Sums and counts over lists, and when they do not depend on the order. */
module Tally {
  import opened Outcomes

  function Sum<T>(s: seq<T>, f: T -> int): int {
    if s == [] then 0 else Sum(s[..|s| - 1], f) + f(s[|s| - 1])
  }

  function Count<T>(s: seq<T>, p: T -> bool): (n: nat)
    ensures n <= |s|
  {
    if s == [] then 0 else Count(s[..|s| - 1], p) + if p(s[|s| - 1]) then 1 else 0
  }

  predicate Distinct<T(==)>(s: seq<T>) {
    forall i, j :: 0 <= i < j < |s| ==> s[i] != s[j]
  }

  lemma {:induction false} SumConcat<T>(a: seq<T>, b: seq<T>, f: T -> int)
    ensures Sum(a + b, f) == Sum(a, f) + Sum(b, f)
  {
    if b == [] {
      assert a + b == a;
    } else {
      var n := |b| - 1;
      assert (a + b)[..|a| + n] == a + b[..n];
      SumConcat(a, b[..n], f);
    }
  }

  lemma SumAppend<T>(a: seq<T>, x: T, f: T -> int)
    ensures Sum(a + [x], f) == Sum(a, f) + f(x)
  {
    assert (a + [x])[..|a|] == a;
  }

  lemma SumRemove<T>(s: seq<T>, i: nat, f: T -> int)
    requires i < |s|
    ensures Sum(s, f) == Sum(s[..i] + s[i + 1..], f) + f(s[i])
  {
    hide Sum;
    var front, back := s[..i], s[i + 1..];
    SumConcat(front, back, f);
    SumAppend(front, s[i], f);
    SumConcat(front + [s[i]], back, f);
    assert (front + [s[i]]) + back == s;
  }

  lemma RemovedMultiset<T>(s: seq<T>, i: nat)
    requires i < |s|
    ensures multiset(s) == multiset(s[..i] + s[i + 1..]) + multiset{s[i]}
  {
    assert s == s[..i] + [s[i]] + s[i + 1..];
  }

  /** A sum depends only on the multiset of the summed items. */
  lemma {:induction false} SumPermute<T>(s: seq<T>, t: seq<T>, f: T -> int)
    requires multiset(s) == multiset(t)
    ensures Sum(s, f) == Sum(t, f)
    decreases |s|
  {
    hide Sum;
    if s == [] {
      assert |multiset(t)| == |t|;
    } else {
      var n := |s| - 1;
      assert s == s[..n] + [s[n]];
      SumAppend(s[..n], s[n], f);
      assert s[n] in multiset(t);
      var j :| 0 <= j < |t| && t[j] == s[n];
      RemovedMultiset(s, n);
      RemovedMultiset(t, j);
      assert s[..n] + s[n + 1..] == s[..n];
      SumRemove(t, j, f);
      assert multiset(s[..n]) == multiset(s) - multiset{s[n]};
      assert multiset(t[..j] + t[j + 1..]) == multiset(t) - multiset{s[n]};
      SumPermute(s[..n], t[..j] + t[j + 1..], f);
    }
  }

  function Indicator<T>(p: T -> bool): T -> int {
    x => if p(x) then 1 else 0
  }

  lemma {:induction false} CountIsSum<T>(s: seq<T>, p: T -> bool)
    ensures Count(s, p) == Sum(s, Indicator(p))
  {
    if s == [] {
    } else {
      CountIsSum(s[..|s| - 1], p);
    }
  }

  lemma CountPermute<T>(s: seq<T>, t: seq<T>, p: T -> bool)
    requires multiset(s) == multiset(t)
    ensures Count(s, p) == Count(t, p)
  {
    CountIsSum(s, p);
    CountIsSum(t, p);
    SumPermute(s, t, Indicator(p));
  }

  lemma {:induction false} SumAtMost<T>(s: seq<T>, f: T -> int, g: T -> int)
    requires forall x :: x in s ==> f(x) <= g(x)
    ensures Sum(s, f) <= Sum(s, g)
  {
    if s == [] {
    } else {
      SumAtMost(s[..|s| - 1], f, g);
    }
  }

  /** Comparing the size of the set with the length of the list. */
  lemma {:induction false} DistinctBySize<T>(s: seq<T>)
    ensures |set x | x in s| <= |s|
    ensures |set x | x in s| == |s| <==> Distinct(s)
  {
    if s == [] {
    } else {
      var n := |s| - 1;
      var front, last := s[..n], s[n];
      assert s == front + [last];
      DistinctBySize(front);
      assert (set x | x in s) == (set x | x in front) + {last};
      if last in front {
        var i :| 0 <= i < n && s[i] == last;
      } else {
        assert forall i :: 0 <= i < n ==> s[i] in front;
      }
      assert Distinct(s) <==> Distinct(front) && last !in front;
    }
  }

  /** Lists without repetition that hold the same items are permutations. */
  lemma SameItemsSameMultiset<T>(s: seq<T>, t: seq<T>)
    requires Distinct(s) && Distinct(t) && forall x :: x in s <==> x in t
    ensures multiset(s) == multiset(t)
  {
    forall x ensures multiset(s)[x] == multiset(t)[x] {
      DistinctMultiplicity(s, x);
      DistinctMultiplicity(t, x);
    }
  }

  lemma {:induction false} DistinctMultiplicity<T>(s: seq<T>, x: T)
    requires Distinct(s)
    ensures multiset(s)[x] == if x in s then 1 else 0
  {
    if s == [] {
    } else {
      var n := |s| - 1;
      assert s == s[..n] + [s[n]];
      DistinctMultiplicity(s[..n], x);
    }
  }

  // ------------------------------------------------------------------
  // Keeping the items with a property, in order
  // ------------------------------------------------------------------

  function Filter<T>(s: seq<T>, p: T -> bool): (r: seq<T>)
    ensures forall x :: x in r ==> x in s && p(x)
    ensures forall x :: x in s && p(x) ==> x in r
  {
    if s == [] then []
    else
      var n := |s| - 1;
      assert s == s[..n] + [s[n]];
      Filter(s[..n], p) + if p(s[n]) then [s[n]] else []
  }

  lemma FilterAppend<T>(a: seq<T>, x: T, p: T -> bool)
    ensures Filter(a + [x], p) == Filter(a, p) + if p(x) then [x] else []
  {
    assert (a + [x])[..|a|] == a;
  }

  /** One more item of the list. */
  lemma FilterPush<T>(s: seq<T>, i: nat, p: T -> bool)
    requires i < |s|
    ensures Filter(s[..i + 1], p) == Filter(s[..i], p) + if p(s[i]) then [s[i]] else []
  {
    assert s[..i + 1][..i] == s[..i];
  }

  lemma FilterStart<T>(s: seq<T>, p: T -> bool)
    ensures Filter(s[..0], p) == [] && Filter(s[..|s|], p) == Filter(s, p)
  {
    assert s[..|s|] == s;
  }

  lemma {:induction false} FilterConcat<T>(a: seq<T>, b: seq<T>, p: T -> bool)
    ensures Filter(a + b, p) == Filter(a, p) + Filter(b, p)
  {
    hide Filter;
    if b == [] {
      FilterNone(p);
      assert a + b == a;
    } else {
      var front, last := b[..|b| - 1], b[|b| - 1];
      FilterConcat(a, front, p);
      FilterAppend(a + front, last, p);
      FilterAppend(front, last, p);
      assert a + b == (a + front) + [last] && b == front + [last];
      Associative(Filter(a, p), Filter(front, p), if p(last) then [last] else []);
    }
  }

  lemma FilterNone<T>(p: T -> bool)
    ensures Filter([], p) == []
  {
  }

  lemma Associative<T>(a: seq<T>, b: seq<T>, c: seq<T>)
    ensures (a + b) + c == a + (b + c)
  {
  }

  /** The first item of the list and the rest. */
  lemma FilterCons<T>(s: seq<T>, p: T -> bool)
    requires s != []
    ensures Filter(s, p) == (if p(s[0]) then [s[0]] else []) + Filter(s[1..], p)
  {
    FilterOne(s[0], p);
    hide Filter;
    assert s == [s[0]] + s[1..];
    FilterConcat([s[0]], s[1..], p);
  }

  /** No two equal items with the property. */
  ghost predicate NoRepeat<T(!new)>(s: seq<T>, p: T -> bool) {
    forall i, j :: 0 <= i < j < |s| && p(s[i]) ==> s[i] != s[j]
  }

  lemma NoRepeatPush<T(!new)>(s: seq<T>, x: T, p: T -> bool)
    ensures NoRepeat(s + [x], p) <==> NoRepeat(s, p) && (p(x) ==> x !in s)
  {
    var all := s + [x];
    assert all[|s|] == x && forall i :: 0 <= i < |s| ==> all[i] == s[i];
    if NoRepeat(all, p) {
      assert forall i :: 0 <= i < |s| && p(s[i]) ==> s[i] != all[|s|];
    }
  }

  /** The kept items repeat exactly when two equal items of the list are kept. */
  lemma {:induction false} FilterDistinct<T(!new)>(s: seq<T>, p: T -> bool)
    ensures Distinct(Filter(s, p)) <==> NoRepeat(s, p)
  {
    if s == [] {
    } else {
      var front, last := s[..|s| - 1], s[|s| - 1];
      assert s == front + [last];
      FilterDistinct(front, p);
      hide *;
      FilterAppend(front, last, p);
      NoRepeatPush(front, last, p);
      if p(last) {
        DistinctPush(Filter(front, p), last);
        assert last in Filter(front, p) <==> last in front;
      } else {
        assert Filter(front, p) + [] == Filter(front, p);
      }
    }
  }

  lemma DistinctPush<T>(s: seq<T>, x: T)
    ensures Distinct(s + [x]) <==> Distinct(s) && x !in s
  {
    var all := s + [x];
    if Distinct(all) {
      assert forall i :: 0 <= i < |s| ==> all[i] == s[i] && all[|s|] == x;
    }
  }

  /** Item `i` is the only one with the property. */
  ghost predicate Sole<T(!new)>(s: seq<T>, i: int, p: T -> bool) {
    0 <= i < |s| && forall k :: 0 <= k < |s| ==> (p(s[k]) <==> k == i)
  }

  lemma {:induction false} FilterSole<T(!new)>(s: seq<T>, p: T -> bool)
    ensures Filter(s, p) == [] <==> forall k :: 0 <= k < |s| ==> !p(s[k])
    ensures |Filter(s, p)| == 1 ==> exists i :: Sole(s, i, p)
    ensures forall i :: Sole(s, i, p) ==> Filter(s, p) == [s[i]]
  {
    if s == [] {
    } else {
      var n := |s| - 1;
      var front, last := s[..n], s[n];
      assert s == front + [last];
      FilterSole(front, p);
      FilterAppend(front, last, p);
      hide Filter;
      forall i ensures Sole(s, i, p) <==> if p(last) then i == n && Filter(front, p) == [] else Sole(front, i, p) {
        assert forall k :: 0 <= k < n ==> s[k] == front[k];
      }
      if |Filter(s, p)| == 1 {
        if p(last) {
          assert Filter(front, p) == [];
          assert Sole(s, n, p);
        } else {
          var i :| Sole(front, i, p);
          assert Sole(s, i, p);
        }
      }
    }
  }

  lemma FilterOne<T>(x: T, p: T -> bool)
    ensures Filter([x], p) == if p(x) then [x] else []
  {
    assert [x][..0] == [];
  }

  // ------------------------------------------------------------------
  // Rates
  // ------------------------------------------------------------------

  /** The share of `part` in `whole`, none when there is nothing to share. */
  function Rate(part: nat, whole: nat): Option<real> {
    if whole == 0 then None else Some(part as real / whole as real)
  }

  /** A rate of a part lies in the unit interval and touches its ends exactly when
      the part, or the rest, is empty. */
  lemma RateFacts(part: nat, rest: nat)
    ensures Rate(part, part + rest).Some? <==> part + rest > 0
    ensures part + rest > 0 ==>
              var q := Rate(part, part + rest).value;
              && 0.0 <= q <= 1.0 && (q == 0.0 <==> part == 0) && (q == 1.0 <==> rest == 0)
              && q * (part + rest) as real == part as real
  {
    if part + rest > 0 {
      var n := (part + rest) as real;
      var q := part as real / n;
      assert q * n == part as real;
      assert (1.0 - q) * n == rest as real;
      SignOfProduct(q, n);
      SignOfProduct(1.0 - q, n);
    }
  }

  lemma SignOfProduct(x: real, y: real)
    requires y > 0.0
    ensures x * y < 0.0 <==> x < 0.0
    ensures x * y == 0.0 <==> x == 0.0
  {
    if x > 0.0 {
      assert x * y > 0.0;
    } else if x < 0.0 {
      assert (-x) * y > 0.0;
    }
  }
}

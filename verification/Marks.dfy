/** Keyed items that carry a kind and a set of flags, and how often a flag occurs
    in one kind or overall. */
module Marks {
  import opened Outcomes
  import opened Tally

  datatype Mark<+K, +C> = Mark(key: K, kind: string, flags: set<C>)

  /** The overall count (None) or the count of one kind. */
  type Scope = Option<string>

  predicate InScope(scope: Scope, kind: string) {
    scope.None? || scope.value == kind
  }

  function Num<K, C(==)>(ms: seq<Mark<K, C>>, scope: Scope, c: C): (n: nat)
    ensures n <= |ms|
  {
    if ms == [] then 0
    else
      var m := ms[|ms| - 1];
      Num(ms[..|ms| - 1], scope, c) + if InScope(scope, m.kind) && c in m.flags then 1 else 0
  }

  lemma NumPush<K, C>(ms: seq<Mark<K, C>>, m: Mark<K, C>, scope: Scope, c: C)
    ensures Num(ms + [m], scope, c) == Num(ms, scope, c) + if InScope(scope, m.kind) && c in m.flags then 1 else 0
  {
    assert (ms + [m])[..|ms|] == ms;
  }

  /** A flag that always comes as exactly one of two others counts as their sum. */
  lemma {:induction false} NumSplit<K, C>(ms: seq<Mark<K, C>>, scope: Scope, whole: C, a: C, b: C)
    requires forall i :: 0 <= i < |ms| ==> (whole in ms[i].flags <==> a in ms[i].flags || b in ms[i].flags)
    requires forall i :: 0 <= i < |ms| ==> !(a in ms[i].flags && b in ms[i].flags)
    ensures Num(ms, scope, whole) == Num(ms, scope, a) + Num(ms, scope, b)
  {
    if ms == [] {
    } else {
      NumSplit(ms[..|ms| - 1], scope, whole, a, b);
    }
  }

  lemma {:induction false} NumWithin<K, C>(ms: seq<Mark<K, C>>, scope: Scope, part: C, whole: C)
    requires forall i :: 0 <= i < |ms| ==> (part in ms[i].flags ==> whole in ms[i].flags)
    ensures Num(ms, scope, part) <= Num(ms, scope, whole)
  {
    if ms == [] {
    } else {
      NumWithin(ms[..|ms| - 1], scope, part, whole);
    }
  }

  lemma {:induction false} NumZero<K, C>(ms: seq<Mark<K, C>>, scope: Scope, c: C)
    ensures Num(ms, scope, c) == 0
            <==> forall i :: 0 <= i < |ms| ==> !(InScope(scope, ms[i].kind) && c in ms[i].flags)
  {
    if ms == [] {
    } else {
      var n := |ms| - 1;
      NumZero(ms[..n], scope, c);
      assert forall i :: 0 <= i < n ==> ms[..n][i] == ms[i];
    }
  }

  lemma {:induction false} NumPointwise<K, C, D>(ms: seq<Mark<K, C>>, c: C, ns: seq<Mark<K, D>>, d: D, scope: Scope)
    requires |ms| == |ns|
    requires forall i :: 0 <= i < |ms| ==> ms[i].kind == ns[i].kind && (c in ms[i].flags <==> d in ns[i].flags)
    ensures Num(ms, scope, c) == Num(ns, scope, d)
  {
    if ms == [] {
    } else {
      NumPointwise(ms[..|ms| - 1], c, ns[..|ns| - 1], d, scope);
    }
  }

  // ------------------------------------------------------------------
  // With distinct keys the order of the list is irrelevant
  // ------------------------------------------------------------------

  predicate Hits<K, C(==)>(m: Mark<K, C>, scope: Scope, c: C) {
    InScope(scope, m.kind) && c in m.flags
  }

  function HitKeys<K(==), C(==)>(ms: seq<Mark<K, C>>, scope: Scope, c: C): set<K> {
    if ms == [] then {}
    else
      var m := ms[|ms| - 1];
      HitKeys(ms[..|ms| - 1], scope, c) + if Hits(m, scope, c) then {m.key} else {}
  }

  ghost predicate DistinctKeys<K, C>(ms: seq<Mark<K, C>>) {
    forall i, j :: 0 <= i < j < |ms| ==> ms[i].key != ms[j].key
  }

  lemma {:induction false} HitKeyMember<K, C>(ms: seq<Mark<K, C>>, scope: Scope, c: C, k: K)
    ensures k in HitKeys(ms, scope, c) <==> exists i :: 0 <= i < |ms| && Hits(ms[i], scope, c) && ms[i].key == k
  {
    if ms == [] {
    } else {
      var n := |ms| - 1;
      HitKeyMember(ms[..n], scope, c, k);
      assert forall i :: 0 <= i < n ==> ms[..n][i] == ms[i];
      if Hits(ms[n], scope, c) && ms[n].key == k {
        assert k in HitKeys(ms, scope, c);
      } else if i :| 0 <= i < n && Hits(ms[..n][i], scope, c) && ms[..n][i].key == k {
        assert Hits(ms[i], scope, c);
      }
    }
  }

  lemma {:induction false} NumIsCardinality<K, C>(ms: seq<Mark<K, C>>, scope: Scope, c: C)
    requires DistinctKeys(ms)
    ensures Num(ms, scope, c) == |HitKeys(ms, scope, c)|
  {
    if ms == [] {
    } else {
      var n := |ms| - 1;
      var front := ms[..n];
      NumIsCardinality(front, scope, c);
      HitKeyMember(front, scope, c, ms[n].key);
      assert forall i :: 0 <= i < n ==> front[i] == ms[i] && front[i].key != ms[n].key;
      assert ms[n].key !in HitKeys(front, scope, c);
    }
  }

  /** Every hit of `c` in `ms` has a hit of `d` in `ns` under the same key. */
  ghost predicate HitsMatched<K, C, D>(ms: seq<Mark<K, C>>, c: C, ns: seq<Mark<K, D>>, d: D, scope: Scope) {
    forall i :: 0 <= i < |ms| && Hits(ms[i], scope, c) ==> HasHit(ns, ms[i].key, scope, d)
  }

  ghost predicate HasHit<K, D>(ns: seq<Mark<K, D>>, k: K, scope: Scope, d: D) {
    exists j :: 0 <= j < |ns| && ns[j].key == k && Hits(ns[j], scope, d)
  }

  lemma HitKeysWithin<K, C, D>(ms: seq<Mark<K, C>>, c: C, ns: seq<Mark<K, D>>, d: D, scope: Scope)
    requires HitsMatched(ms, c, ns, d, scope)
    ensures HitKeys(ms, scope, c) <= HitKeys(ns, scope, d)
  {
    forall k | k in HitKeys(ms, scope, c) ensures k in HitKeys(ns, scope, d) {
      HitKeyMember(ms, scope, c, k);
      var i :| 0 <= i < |ms| && Hits(ms[i], scope, c) && ms[i].key == k;
      assert HasHit(ns, ms[i].key, scope, d);
      HitKeyMember(ns, scope, d, k);
    }
  }

  /** Lists in any two orders agree on a count when their hits match by key. */
  lemma NumAgree<K, C, D>(ms: seq<Mark<K, C>>, c: C, ns: seq<Mark<K, D>>, d: D, scope: Scope)
    requires DistinctKeys(ms) && DistinctKeys(ns)
    requires HitsMatched(ms, c, ns, d, scope) && HitsMatched(ns, d, ms, c, scope)
    ensures Num(ms, scope, c) == Num(ns, scope, d)
  {
    HitKeysWithin(ms, c, ns, d, scope);
    HitKeysWithin(ns, d, ms, c, scope);
    NumIsCardinality(ms, scope, c);
    NumIsCardinality(ns, scope, d);
    assert HitKeys(ms, scope, c) == HitKeys(ns, scope, d);
  }

  // ------------------------------------------------------------------
  // Counter dictionaries: one overall, one per kind
  // ------------------------------------------------------------------

  /** The dictionary holds, for each of its counters, the count in the scope. */
  ghost predicate Counts<K, C>(b: map<C, nat>, cs: set<C>, ms: seq<Mark<K, C>>, scope: Scope) {
    b.Keys == cs && forall c :: c in cs ==> b[c] == Num(ms, scope, c)
  }

  function Increment<C>(b: map<C, nat>, incremented: set<C>): (r: map<C, nat>)
    ensures r.Keys == b.Keys
  {
    map c | c in b :: if c in incremented then b[c] + 1 else b[c]
  }

  /** `bucket[c] += 1` for each listed counter in turn. */
  function Bump<C(==)>(b: map<C, nat>, cs: seq<C>): (r: map<C, nat>)
    ensures r.Keys == b.Keys
  {
    if cs == [] then b
    else if cs[0] in b then Bump(b[cs[0] := b[cs[0]] + 1], cs[1..])
    else Bump(b, cs[1..])
  }

  /** When no counter is listed twice, each listed one grows by exactly one. */
  lemma {:induction false} BumpIsIncrement<C>(b: map<C, nat>, cs: seq<C>)
    requires Distinct(cs)
    ensures Bump(b, cs) == Increment(b, set c | c in cs)
  {
    if cs == [] {
    } else {
      var next := if cs[0] in b then b[cs[0] := b[cs[0]] + 1] else b;
      assert cs[0] !in cs[1..];
      BumpIsIncrement(next, cs[1..]);
      assert forall c :: c in cs <==> c == cs[0] || c in cs[1..];
    }
  }

  ghost predicate CountedAs<K, C>(
    overall: map<C, nat>, byKind: map<string, map<C, nat>>, cs: set<C>, kinds: seq<string>, ms: seq<Mark<K, C>>)
  {
    && Counts(overall, cs, ms, None)
    && (forall k :: k in byKind <==> k in kinds)
    && (forall k :: k in byKind ==> Counts(byKind[k], cs, ms, Some(k)))
  }

  lemma CountedNothing<K, C>(blank: map<C, nat>, byKind: map<string, map<C, nat>>, cs: set<C>, kinds: seq<string>)
    requires blank.Keys == cs && forall c :: c in cs ==> blank[c] == 0
    requires (forall k :: k in byKind <==> k in kinds) && (forall k :: k in byKind ==> byKind[k] == blank)
    ensures CountedAs<K, C>(blank, byKind, cs, kinds, [])
  {
  }

  lemma CountsStep<K, C>(
    b: map<C, nat>, cs: set<C>, ms: seq<Mark<K, C>>, scope: Scope, m: Mark<K, C>, incremented: set<C>)
    requires Counts(b, cs, ms, scope)
    requires forall c :: c in cs ==> (c in incremented <==> c in m.flags)
    ensures Counts(if InScope(scope, m.kind) then Increment(b, incremented) else b, cs, ms + [m], scope)
  {
    forall c | c in cs
      ensures Num(ms + [m], scope, c)
           == Num(ms, scope, c) + if InScope(scope, m.kind) && c in m.flags then 1 else 0
    {
      NumPush(ms, m, scope, c);
    }
    hide Num;
  }

  lemma CountedByIncrement<K, C>(
    overall: map<C, nat>, byKind: map<string, map<C, nat>>, cs: set<C>, kinds: seq<string>, ms: seq<Mark<K, C>>,
    m: Mark<K, C>, incremented: set<C>)
    requires CountedAs(overall, byKind, cs, kinds, ms) && m.kind in byKind
    requires forall c :: c in cs ==> (c in incremented <==> c in m.flags)
    ensures CountedAs(Increment(overall, incremented),
                      byKind[m.kind := Increment(byKind[m.kind], incremented)], cs, kinds, ms + [m])
  {
    CountsStep(overall, cs, ms, None, m, incremented);
    forall k | k in byKind
      ensures Counts(if k == m.kind then Increment(byKind[k], incremented) else byKind[k], cs, ms + [m], Some(k))
    {
      CountsStep(byKind[k], cs, ms, Some(k), m, incremented);
    }
    hide Counts, Increment;
  }

  /** Incrementing the overall dictionary and the one of the item's kind, each
      counter once, keeps every dictionary exact. */
  lemma CountedStep<K, C>(
    overall: map<C, nat>, byKind: map<string, map<C, nat>>, cs: set<C>, kinds: seq<string>, ms: seq<Mark<K, C>>,
    m: Mark<K, C>, counters: seq<C>)
    requires CountedAs(overall, byKind, cs, kinds, ms) && m.kind in byKind
    requires Distinct(counters) && forall c :: c in cs ==> (c in counters <==> c in m.flags)
    ensures CountedAs(Bump(overall, counters), byKind[m.kind := Bump(byKind[m.kind], counters)], cs, kinds, ms + [m])
  {
    hide *;
    BumpIsIncrement(overall, counters);
    BumpIsIncrement(byKind[m.kind], counters);
    CountedByIncrement(overall, byKind, cs, kinds, ms, m, set c | c in counters);
  }

  lemma KindKnown<K, C>(
    overall: map<C, nat>, byKind: map<string, map<C, nat>>, cs: set<C>, kinds: seq<string>, ms: seq<Mark<K, C>>,
    kind: string)
    requires CountedAs(overall, byKind, cs, kinds, ms)
    ensures kind in byKind <==> kind in kinds
  {
  }
}

/**
 * The key translation performed by HookTranslateKeys, as a function of the
 * original map, the destination type's key mapping and the order in which the
 * `range` loop happens to visit the keys. Go leaves that order unspecified, so
 * every property below is stated for an arbitrary order (or for every order
 * that visits each original key exactly once).
 */
module KeyTranslation {
  import opened Strings

  /** A key mapping: lower-case deprecated key -> canonical key. */
  type Rules = map<string, string>

  /** k is a deprecated key: its lower-case form has an entry in the mapping. */
  predicate IsDeprecated(rules: Rules, k: string) {
    ToLower(k) in rules
  }

  /** The canonical key a deprecated key translates to. */
  function CanonicalKey(rules: Rules, k: string): (r: string)
    requires IsDeprecated(rules, k)
    ensures r in rules.Values
  {
    rules[ToLower(k)]
  }

  /**
   * One pass of the loop body for key k: a deprecated key whose canonical key
   * is absent moves its value to the canonical key; everything else stays.
   * A key that is no longer present is not produced by `range`, so visiting it
   * does nothing.
   */
  function Visit<V>(m: map<string, V>, rules: Rules, k: string): (r: map<string, V>)
    ensures |r| == |m|
    ensures forall x :: x in m && x != k ==> x in r && r[x] == m[x]
    ensures forall x :: x in r && x !in m ==>
              k in m && IsDeprecated(rules, k) && x == CanonicalKey(rules, k) && r[x] == m[k]
    ensures k in r ==> r[k] == m[k]
  {
    if k !in m || !IsDeprecated(rules, k) || CanonicalKey(rules, k) in m then m
    else
      var c := CanonicalKey(rules, k);
      var r := (m - {k})[c := m[k]];
      assert r.Keys == m.Keys - {k} + {c};
      r
  }

  /** The map after the loop has visited the keys of `order`, in that order. */
  function Translate<V>(m: map<string, V>, rules: Rules, order: seq<string>): (r: map<string, V>)
    decreases |order|
  {
    if order == [] then m
    else Visit(Translate(m, rules, order[..|order| - 1]), rules, order[|order| - 1])
  }

  /** `order` visits original keys of m, none twice: every prefix of a `range` loop over a snapshot. */
  ghost predicate Visits<V>(order: seq<string>, m: map<string, V>) {
    && (forall i, j :: 0 <= i < j < |order| ==> order[i] != order[j])
    && (forall i :: 0 <= i < |order| ==> order[i] in m)
  }

  /** `order` visits every key of m exactly once: a complete `range` loop. */
  ghost predicate Enumerates<V>(order: seq<string>, m: map<string, V>) {
    Visits(order, m) && forall k :: k in m ==> k in order
  }

  /** Every canonical key of m's deprecated keys is already present: nothing is left to move. */
  ghost predicate Settled<V>(m: map<string, V>, rules: Rules) {
    forall k :: k in m && IsDeprecated(rules, k) ==> CanonicalKey(rules, k) in m
  }

  /**
   * No chain of renames: a canonical key of the mapping that is itself a
   * deprecated key translates to itself (such as "one" -> "One"), so it is
   * never moved on.
   */
  ghost predicate NoChains(rules: Rules) {
    forall d :: d in rules && ToLower(rules[d]) in rules ==> rules[ToLower(rules[d])] == rules[d]
  }

  /** x holds, in the result, the value of original key k: either untouched or moved once to k's canonical key. */
  ghost predicate TranslatesTo<V>(m: map<string, V>, rules: Rules, k: string, x: string) {
    k in m && (x == k || (IsDeprecated(rules, k) && x == CanonicalKey(rules, k)))
  }

  lemma PrefixVisits<V>(order: seq<string>, m: map<string, V>)
    requires Visits(order, m) && order != []
    ensures Visits(order[..|order| - 1], m)
    ensures order[|order| - 1] !in order[..|order| - 1]
  {
  }

  /** Visiting one more original key extends a loop prefix; that key is still there with its original value. */
  lemma VisitNext<V>(m: map<string, V>, rules: Rules, order: seq<string>, k: string)
    requires Visits(order, m) && k in m && k !in order
    ensures Visits(order + [k], m)
    ensures Translate(m, rules, order + [k]) == Visit(Translate(m, rules, order), rules, k)
    ensures k in Translate(m, rules, order) && Translate(m, rules, order)[k] == m[k]
  {
    assert (order + [k])[..|order|] == order;
    UnvisitedKept(m, rules, order, k);
  }

  /** Translation never adds or loses a key: each move deletes one present key and inserts one absent key. */
  lemma {:induction false} TranslateKeepsSize<V>(m: map<string, V>, rules: Rules, order: seq<string>)
    ensures |Translate(m, rules, order)| == |m|
  {
    if order != [] {
      TranslateKeepsSize(m, rules, order[..|order| - 1]);
    }
  }

  /** A key the loop has not visited yet is still present with its original value. */
  lemma {:induction false} UnvisitedKept<V>(m: map<string, V>, rules: Rules, order: seq<string>, x: string)
    requires x in m && x !in order
    ensures x in Translate(m, rules, order) && Translate(m, rules, order)[x] == m[x]
  {
    if order != [] {
      UnvisitedKept(m, rules, order[..|order| - 1], x);
    }
  }

  /** A key whose lower-case form is not a deprecated entry keeps its value, in any order. */
  lemma {:induction false} NonDeprecatedKept<V>(m: map<string, V>, rules: Rules, order: seq<string>, x: string)
    requires x in m && !IsDeprecated(rules, x)
    ensures x in Translate(m, rules, order) && Translate(m, rules, order)[x] == m[x]
  {
    if order != [] {
      NonDeprecatedKept(m, rules, order[..|order| - 1], x);
    }
  }

  /**
   * If the canonical key of a deprecated key k is already present (compared
   * with its exact case), the canonical value is kept and k stays with its own
   * value. This is guaranteed when the canonical key is not moved on in turn:
   * it is not deprecated, or it translates to itself.
   */
  lemma {:induction false} CanonicalPresentKept<V>(m: map<string, V>, rules: Rules, order: seq<string>, k: string)
    requires k in m && IsDeprecated(rules, k) && CanonicalKey(rules, k) in m
    requires !IsDeprecated(rules, CanonicalKey(rules, k)) || CanonicalKey(rules, CanonicalKey(rules, k)) == CanonicalKey(rules, k)
    ensures var r := Translate(m, rules, order);
            && k in r && r[k] == m[k]
            && CanonicalKey(rules, k) in r && r[CanonicalKey(rules, k)] == m[CanonicalKey(rules, k)]
  {
    if order != [] {
      CanonicalPresentKept(m, rules, order[..|order| - 1], k);
    }
  }

  /** The state of one move while the loop runs: before k is visited c is absent, afterwards it holds k's value. */
  lemma {:induction false} MoveInProgress<V>(m: map<string, V>, rules: Rules, order: seq<string>, k: string)
    requires Visits(order, m)
    requires k in m && IsDeprecated(rules, k) && CanonicalKey(rules, k) !in m
    requires forall j :: j in m && j != k && IsDeprecated(rules, j) ==> CanonicalKey(rules, j) != CanonicalKey(rules, k)
    requires forall j :: j in m && IsDeprecated(rules, j) ==> CanonicalKey(rules, j) != k
    ensures var r := Translate(m, rules, order);
            && (k !in order ==> CanonicalKey(rules, k) !in r)
            && (k in order ==> k !in r && CanonicalKey(rules, k) in r && r[CanonicalKey(rules, k)] == m[k])
  {
    if order != [] {
      var prefix, j := order[..|order| - 1], order[|order| - 1];
      PrefixVisits(order, m);
      MoveInProgress(m, rules, prefix, k);
      if j == k {
        UnvisitedKept(m, rules, prefix, k);
      }
    }
  }

  /**
   * The value half of a move while the loop runs: before k is visited its
   * canonical key c is absent, afterwards c holds k's value. It needs only
   * that no other key of the map also translates to c.
   */
  lemma {:induction false} ArrivalInProgress<V>(m: map<string, V>, rules: Rules, order: seq<string>, k: string)
    requires Visits(order, m)
    requires k in m && IsDeprecated(rules, k) && CanonicalKey(rules, k) !in m
    requires forall j :: j in m && j != k && IsDeprecated(rules, j) ==> CanonicalKey(rules, j) != CanonicalKey(rules, k)
    ensures var r := Translate(m, rules, order);
            && (k !in order ==> CanonicalKey(rules, k) !in r)
            && (k in order ==> CanonicalKey(rules, k) in r && r[CanonicalKey(rules, k)] == m[k])
  {
    if order != [] {
      var prefix, j := order[..|order| - 1], order[|order| - 1];
      PrefixVisits(order, m);
      ArrivalInProgress(m, rules, prefix, k);
      if j == k {
        UnvisitedKept(m, rules, prefix, k);
      }
    }
  }

  /**
   * A deprecated key k whose canonical key c is absent has its value moved to
   * c, whatever else the map holds, as long as no other key of the map also
   * translates to c (which one wins would then depend on the iteration order).
   */
  lemma CanonicalReceivesValue<V>(m: map<string, V>, rules: Rules, order: seq<string>, k: string)
    requires Enumerates(order, m)
    requires k in m && IsDeprecated(rules, k) && CanonicalKey(rules, k) !in m
    requires forall j :: j in m && j != k && IsDeprecated(rules, j) ==> CanonicalKey(rules, j) != CanonicalKey(rules, k)
    ensures var r := Translate(m, rules, order);
            CanonicalKey(rules, k) in r && r[CanonicalKey(rules, k)] == m[k]
  {
    ArrivalInProgress(m, rules, order, k);
  }

  /**
   * A deprecated key k whose canonical key c is absent is moved: afterwards c
   * holds k's original value and k is gone. That k is gone is guaranteed only
   * when, besides c having no competitor, no key of the map translates to k
   * itself: such a key would move into k once k has left.
   */
  lemma MovedToCanonical<V>(m: map<string, V>, rules: Rules, order: seq<string>, k: string)
    requires Enumerates(order, m)
    requires k in m && IsDeprecated(rules, k) && CanonicalKey(rules, k) !in m
    requires forall j :: j in m && j != k && IsDeprecated(rules, j) ==> CanonicalKey(rules, j) != CanonicalKey(rules, k)
    requires forall j :: j in m && IsDeprecated(rules, j) ==> CanonicalKey(rules, j) != k
    ensures var r := Translate(m, rules, order);
            && k !in r && CanonicalKey(rules, k) in r && r[CanonicalKey(rules, k)] == m[k]
  {
    MoveInProgress(m, rules, order, k);
  }

  /** Every entry of r is an entry of m, left in place or moved once to its canonical key. */
  ghost predicate Traceable<V>(m: map<string, V>, rules: Rules, r: map<string, V>) {
    forall x :: x in r ==> exists k :: TranslatesTo(m, rules, k, x) && r[x] == m[k]
  }

  /** No entry is invented and none is translated twice: the result is traceable to the original map. */
  lemma {:induction false} TranslateProvenance<V>(m: map<string, V>, rules: Rules, order: seq<string>)
    requires Visits(order, m)
    ensures Traceable(m, rules, Translate(m, rules, order))
  {
    if order != [] {
      var prefix, j := order[..|order| - 1], order[|order| - 1];
      PrefixVisits(order, m);
      TranslateProvenance(m, rules, prefix);
      var before, r := Translate(m, rules, prefix), Translate(m, rules, order);
      forall x | x in r
        ensures exists k :: TranslatesTo(m, rules, k, x) && r[x] == m[k]
      {
        if x !in before {
          UnvisitedKept(m, rules, prefix, j);
          assert TranslatesTo(m, rules, j, x);
        } else {
          var k :| TranslatesTo(m, rules, k, x) && before[x] == m[k];
          assert TranslatesTo(m, rules, k, x) && r[x] == m[k];
        }
      }
    }
  }

  /** On a settled map every visit is a no-op, so translation is the identity. */
  lemma {:induction false} SettledUnchanged<V>(m: map<string, V>, rules: Rules, order: seq<string>)
    requires Settled(m, rules)
    ensures Translate(m, rules, order) == m
  {
    if order != [] {
      SettledUnchanged(m, rules, order[..|order| - 1]);
    }
  }

  /**
   * While the loop runs without chains, every key present is original or canonical,
   * and every deprecated key already visited has its canonical key present.
   */
  lemma {:induction false} SettlesVisited<V>(m: map<string, V>, rules: Rules, order: seq<string>)
    requires Visits(order, m) && NoChains(rules)
    ensures var r := Translate(m, rules, order);
            forall x :: x in r ==>
              && (x in m || x in rules.Values)
              && (IsDeprecated(rules, x) && x in order ==> CanonicalKey(rules, x) in r)
  {
    if order != [] {
      var prefix, j := order[..|order| - 1], order[|order| - 1];
      PrefixVisits(order, m);
      SettlesVisited(m, rules, prefix);
      var before, r := Translate(m, rules, order[..|order| - 1]), Translate(m, rules, order);
      forall x | x in r
        ensures x in m || x in rules.Values
        ensures IsDeprecated(rules, x) && x in order ==> CanonicalKey(rules, x) in r
      {
        if x !in before {
          assert x == CanonicalKey(rules, j);
        } else if IsDeprecated(rules, x) && x in order {
          var c := CanonicalKey(rules, x);
          assert !IsDeprecated(rules, c) || CanonicalKey(rules, c) == c;
          if x == j {
            UnvisitedKept(m, rules, prefix, j);
          }
        }
      }
    }
  }

  /** Without chains, a complete pass leaves a settled map. */
  lemma TranslateSettles<V>(m: map<string, V>, rules: Rules, order: seq<string>)
    requires Enumerates(order, m) && NoChains(rules)
    ensures Settled(Translate(m, rules, order), rules)
  {
    SettlesVisited(m, rules, order);
  }

  /** Without chains, translating an already translated map changes nothing. */
  lemma TranslateIdempotent<V>(m: map<string, V>, rules: Rules, order: seq<string>, again: seq<string>)
    requires Enumerates(order, m) && NoChains(rules)
    ensures Translate(Translate(m, rules, order), rules, again) == Translate(m, rules, order)
  {
    TranslateSettles(m, rules, order);
    SettledUnchanged(Translate(m, rules, order), rules, again);
  }

  /** k is a key of m that the loop moves: deprecated, with its canonical key absent from m. */
  predicate Moves<V>(m: map<string, V>, rules: Rules, k: string) {
    k in m && IsDeprecated(rules, k) && CanonicalKey(rules, k) !in m
  }

  /**
   * No two moving keys share a canonical key, and no deprecated key of m has a
   * moving key as its canonical key. Then the visiting order cannot matter.
   */
  ghost predicate Unambiguous<V>(m: map<string, V>, rules: Rules) {
    && (forall j, k :: Moves(m, rules, j) && Moves(m, rules, k) && j != k ==>
          CanonicalKey(rules, j) != CanonicalKey(rules, k))
    && (forall j, k :: j in m && IsDeprecated(rules, j) && Moves(m, rules, k) ==> CanonicalKey(rules, j) != k)
  }

  /**
   * The translated map stated directly: every key that does not move keeps its
   * value, and every moving key's value sits under its canonical key.
   */
  ghost function Renamed<V>(m: map<string, V>, rules: Rules): (r: map<string, V>)
    requires Unambiguous(m, rules)
  {
    var kept := set k | k in m && !Moves(m, rules, k);
    var moved := set k | k in m && Moves(m, rules, k) :: CanonicalKey(rules, k);
    map x | x in kept + moved ::
      if x in m then m[x] else var k :| Moves(m, rules, k) && CanonicalKey(rules, k) == x; m[k]
  }

  /** A key that does not move stays with its value: its canonical key, if any, is itself a key that stays. */
  lemma {:induction false} NonMoverKept<V>(m: map<string, V>, rules: Rules, order: seq<string>)
    requires Unambiguous(m, rules)
    ensures var r := Translate(m, rules, order);
            forall x :: x in m && !Moves(m, rules, x) ==> x in r && r[x] == m[x]
  {
    if order != [] {
      NonMoverKept(m, rules, order[..|order| - 1]);
    }
  }

  /** Where a key of m stays, and where a moving key's value goes, in the reference map. */
  lemma RenamedAt<V>(m: map<string, V>, rules: Rules, k: string)
    requires Unambiguous(m, rules) && k in m
    ensures var e := Renamed(m, rules);
            && (!Moves(m, rules, k) ==> k in e && e[k] == m[k])
            && (Moves(m, rules, k) ==> k !in e && CanonicalKey(rules, k) in e && e[CanonicalKey(rules, k)] == m[k])
  {
    if Moves(m, rules, k) {
      var c := CanonicalKey(rules, k);
      assert c in set j | j in m && Moves(m, rules, j) :: CanonicalKey(rules, j);
    }
  }

  /** Every key of the reference map is a key that stays or the canonical key of a moving key. */
  lemma RenamedKeys<V>(m: map<string, V>, rules: Rules, x: string)
    requires Unambiguous(m, rules) && x in Renamed(m, rules)
    ensures (x in m && !Moves(m, rules, x)) || exists k :: Moves(m, rules, k) && CanonicalKey(rules, k) == x
  {
  }

  /** An entry of the translated map is an entry of the reference map. */
  lemma TranslatedEntryRenamed<V>(m: map<string, V>, rules: Rules, order: seq<string>, x: string)
    requires Enumerates(order, m) && Unambiguous(m, rules)
    requires x in Translate(m, rules, order)
    ensures x in Renamed(m, rules) && Translate(m, rules, order)[x] == Renamed(m, rules)[x]
  {
    var r := Translate(m, rules, order);
    TranslateProvenance(m, rules, order);
    var k :| TranslatesTo(m, rules, k, x) && r[x] == m[k];
    RenamedAt(m, rules, k);
    if Moves(m, rules, k) {
      MovedToCanonical(m, rules, order, k);
    } else if x != k {
      RenamedAt(m, rules, x);
      NonMoverKept(m, rules, order);
    }
  }

  /** A key of the reference map is a key of the translated map. */
  lemma RenamedKeyTranslated<V>(m: map<string, V>, rules: Rules, order: seq<string>, x: string)
    requires Enumerates(order, m) && Unambiguous(m, rules)
    requires x in Renamed(m, rules)
    ensures x in Translate(m, rules, order)
  {
    RenamedKeys(m, rules, x);
    if x in m && !Moves(m, rules, x) {
      NonMoverKept(m, rules, order);
    } else {
      var k :| Moves(m, rules, k) && CanonicalKey(rules, k) == x;
      MovedToCanonical(m, rules, order, k);
    }
  }

  lemma SameEntries<V>(r: map<string, V>, e: map<string, V>)
    requires forall x :: x in r ==> x in e && r[x] == e[x]
    requires forall x :: x in e ==> x in r
    ensures r == e
  {
  }

  /** With no competing keys, a complete pass yields the reference map, whatever the order. */
  lemma TranslateIsRenamed<V>(m: map<string, V>, rules: Rules, order: seq<string>)
    requires Enumerates(order, m) && Unambiguous(m, rules)
    ensures Translate(m, rules, order) == Renamed(m, rules)
  {
    var r, e := Translate(m, rules, order), Renamed(m, rules);
    forall x | x in r
      ensures x in e && r[x] == e[x]
    {
      TranslatedEntryRenamed(m, rules, order, x);
    }
    forall x | x in e
      ensures x in r
    {
      RenamedKeyTranslated(m, rules, order, x);
    }
    SameEntries(r, e);
  }

  /** With no competing keys, every complete visiting order gives the same map. */
  lemma TranslateOrderIndependent<V>(m: map<string, V>, rules: Rules, order1: seq<string>, order2: seq<string>)
    requires Enumerates(order1, m) && Enumerates(order2, m) && Unambiguous(m, rules)
    ensures Translate(m, rules, order1) == Translate(m, rules, order2)
  {
    TranslateIsRenamed(m, rules, order1);
    TranslateIsRenamed(m, rules, order2);
  }
}

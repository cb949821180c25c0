/**
 * The key mappings and maps of the decode package's test cases, and what
 * HookTranslateKeys makes of them for every order in which Go may visit the
 * keys.
 */
module Scenarios {
  import opened Strings
  import opened KeyTranslation
  import opened Values
  import opened Decode

  /** TypeStruct's mapping, declared with a value receiver. */
  const TypeStructRules: Rules := map["oldone" := "One", "oldtwo" := "two"]

  /** TypePtrToStruct's mapping, declared with a pointer receiver; two deprecated keys share "four". */
  const TypePtrToStructRules: Rules := map["old_three" := "Three", "old_four" := "four", "oldfour" := "four"]

  lemma SubsetOfSameSize<T>(a: set<T>, b: set<T>)
    requires a <= b && |a| == |b|
    ensures a == b
  {
    if a != b {
      var x :| x in b && x !in a;
      assert a <= b - {x};
      SubsetSize(a, b - {x});
    }
  }

  lemma {:induction false} SubsetSize<T>(a: set<T>, b: set<T>)
    requires a <= b
    ensures |a| <= |b|
  {
    if a != {} {
      var x :| x in a;
      SubsetSize(a - {x}, b - {x});
    }
  }

  /** A map of three entries is determined by its three keys. */
  lemma ThreeEntries<V>(r: map<string, V>, a: string, b: string, c: string)
    requires a != b && b != c && a != c
    requires |r| == 3 && a in r && b in r && c in r
    ensures r == map[a := r[a], b := r[b], c := r[c]]
  {
    assert |{a, b, c}| == 3;
    SubsetOfSameSize({a, b, c}, r.Keys);
  }

  /** In a map of three keys classified as by KeptAndMoved, the deprecated key a moves to its canonical key. */
  lemma MovedAmongThree<V>(m: map<string, V>, rules: Rules, order: seq<string>, n: string, a: string, b: string)
    requires m.Keys == {n, a, b} && KeptAndMoved(rules, n, a, b)
    requires Enumerates(order, m)
    ensures var r := Translate(m, rules, order);
            CanonicalKey(rules, a) in r && r[CanonicalKey(rules, a)] == m[a]
  {
    MovedToCanonical(m, rules, order, a);
  }

  /**
   * A map of one key that is not deprecated and two deprecated keys whose
   * distinct canonical keys are absent: whatever the order, the two values
   * move and the third stays.
   */
  lemma OneKeptTwoMoved<V>(rules: Rules, order: seq<string>, n: string, vn: V, a: string, va: V, b: string, vb: V)
    requires KeptAndMoved(rules, n, a, b)
    requires Enumerates(order, map[n := vn, a := va, b := vb])
    ensures Translate(map[n := vn, a := va, b := vb], rules, order)
         == map[n := vn, CanonicalKey(rules, a) := va, CanonicalKey(rules, b) := vb]
  {
    var m := map[n := vn, a := va, b := vb];
    var r := Translate(m, rules, order);
    assert m.Keys == {n, a, b};
    NonDeprecatedKept(m, rules, order, n);
    MovedAmongThree(m, rules, order, n, a, b);
    MovedAmongThree(m, rules, order, n, b, a);
    TranslateKeepsSize(m, rules, order);
    ThreeEntries(r, n, CanonicalKey(rules, a), CanonicalKey(rules, b));
  }

  /** The conditions of OneKeptTwoMoved for three keys of a map and a key mapping. */
  predicate KeptAndMoved(rules: Rules, n: string, a: string, b: string) {
    && n != a && a != b && n != b
    && !IsDeprecated(rules, n) && IsDeprecated(rules, a) && IsDeprecated(rules, b)
    && CanonicalKey(rules, a) != CanonicalKey(rules, b)
    && CanonicalKey(rules, a) !in {n, a, b} && CanonicalKey(rules, b) !in {n, a, b}
  }

  /** Under TypeStruct's mapping, "None" is kept while "OldOne" and "oldtwo" move to "One" and "two". */
  lemma StructRulesClassify()
    ensures KeptAndMoved(TypeStructRules, "None", "OldOne", "oldtwo")
    ensures CanonicalKey(TypeStructRules, "OldOne") == "One"
    ensures CanonicalKey(TypeStructRules, "oldtwo") == "two"
  {
    assert ToLower("None") == "none";
    assert ToLower("OldOne") == "oldone";
    assert ToLower("oldtwo") == "oldtwo";
  }

  /**
   * A struct destination whose value receiver supplies the mapping: "OldOne"
   * and "oldtwo" move to "One" and "two", "None" stays.
   */
  lemma StructReceiverTranslation(order: seq<string>)
    requires Enumerates(order, map["None" := "no translation", "OldOne" := "value1", "oldtwo" := "value2"])
    ensures Translate(map["None" := "no translation", "OldOne" := "value1", "oldtwo" := "value2"], TypeStructRules, order)
         == map["None" := "no translation", "One" := "value1", "two" := "value2"]
  {
    StructRulesClassify();
    OneKeptTwoMoved(TypeStructRules, order, "None", "no translation", "OldOne", "value1", "oldtwo", "value2");
  }

  /**
   * Under TypePtrToStruct's mapping, "None" is kept while any spelling of
   * "old_three" and of "old_four" or "oldfour" moves to "Three" and "four".
   */
  lemma PtrRulesClassify(three: string, four: string)
    requires ToLower(three) == "old_three"
    requires ToLower(four) == "old_four" || ToLower(four) == "oldfour"
    ensures KeptAndMoved(TypePtrToStructRules, "None", three, four)
    ensures CanonicalKey(TypePtrToStructRules, three) == "Three"
    ensures CanonicalKey(TypePtrToStructRules, four) == "four"
  {
    assert ToLower("None") == "none";
    assert |three| == 9 && |four| in {7, 8};
  }

  /**
   * A destination whose pointer receiver supplies the mapping: keys matching
   * "old_three" and "old_four" (or "oldfour") in any case move to "Three" and
   * "four", "None" stays.
   */
  lemma PointerReceiverTranslation(three: string, four: string, order: seq<string>)
    requires ToLower(three) == "old_three"
    requires ToLower(four) == "old_four" || ToLower(four) == "oldfour"
    requires Enumerates(order, map["None" := "no translation", three := "value3", four := "value4"])
    ensures Translate(map["None" := "no translation", three := "value3", four := "value4"], TypePtrToStructRules, order)
         == map["None" := "no translation", "Three" := "value3", "four" := "value4"]
  {
    PtrRulesClassify(three, four);
    OneKeptTwoMoved(TypePtrToStructRules, order, "None", "no translation", three, "value3", four, "value4");
  }

  /** The keys "old_THREE" and "old_four" of a nested map decoded into a TypePtrToStruct. */
  lemma PointerReceiverNestedTranslation(order: seq<string>)
    requires Enumerates(order, map["None" := "no translation", "old_THREE" := "value3", "old_four" := "value4"])
    ensures Translate(map["None" := "no translation", "old_THREE" := "value3", "old_four" := "value4"], TypePtrToStructRules, order)
         == map["None" := "no translation", "Three" := "value3", "four" := "value4"]
  {
    assert ToLower("old_THREE") == "old_three";
    assert ToLower("old_four") == "old_four";
    PointerReceiverTranslation("old_THREE", "old_four", order);
  }

  /** The keys "Old_Three" and "OldFour" of a map decoded into a *TypePtrToStruct. */
  lemma PointerReceiverTopLevelTranslation(order: seq<string>)
    requires Enumerates(order, map["None" := "no translation", "Old_Three" := "value3", "OldFour" := "value4"])
    ensures Translate(map["None" := "no translation", "Old_Three" := "value3", "OldFour" := "value4"], TypePtrToStructRules, order)
         == map["None" := "no translation", "Three" := "value3", "four" := "value4"]
  {
    assert ToLower("Old_Three") == "old_three";
    assert ToLower("OldFour") == "oldfour";
    PointerReceiverTranslation("Old_Three", "OldFour", order);
  }

  /**
   * When "One" and "two" already hold values, "OldOne" and "oldTWO" are left
   * where they are and nothing changes, in whatever order the keys are visited.
   */
  lemma CanonicalAlreadyPresentUnchanged(order: seq<string>)
    ensures var m := map["OldOne" := "value1", "One" := "original1", "oldTWO" := "value2", "two" := "original2"];
            Translate(m, TypeStructRules, order) == m
  {
    var m := map["OldOne" := "value1", "One" := "original1", "oldTWO" := "value2", "two" := "original2"];
    assert ToLower("OldOne") == "oldone";
    assert ToLower("One") == "one";
    assert ToLower("oldTWO") == "oldtwo";
    assert ToLower("two") == "two";
    assert Settled(m, TypeStructRules);
    SettledUnchanged(m, TypeStructRules, order);
  }

  /**
   * Two deprecated keys sharing one absent canonical key: the key visited
   * first moves there and the other stays where it is.
   */
  lemma FirstVisitedWins<V>(rules: Rules, m: map<string, V>, k1: string, k2: string)
    requires m.Keys == {k1, k2} && k1 != k2 && IsDeprecated(rules, k1) && IsDeprecated(rules, k2)
    requires CanonicalKey(rules, k1) == CanonicalKey(rules, k2) && CanonicalKey(rules, k1) !in m
    ensures Translate(m, rules, [k1, k2]) == map[CanonicalKey(rules, k1) := m[k1], k2 := m[k2]]
  {
    var c := CanonicalKey(rules, k1);
    var once := map[c := m[k1], k2 := m[k2]];
    assert Visit(m, rules, k1) == once by {
      assert Visit(m, rules, k1) == (m - {k1})[c := m[k1]];
      assert (m - {k1}) == map[k2 := m[k2]];
    }
    assert Translate(m, rules, [k1]) == once by {
      assert [k1][..0] == [];
    }
    assert Visit(once, rules, k2) == once;
    assert [k1, k2][..1] == [k1];
  }

  /** Under TypePtrToStruct's mapping, "old_four" and "oldfour" are both deprecated for "four". */
  lemma PtrRulesCollide()
    ensures IsDeprecated(TypePtrToStructRules, "old_four") && IsDeprecated(TypePtrToStructRules, "oldfour")
    ensures CanonicalKey(TypePtrToStructRules, "old_four") == CanonicalKey(TypePtrToStructRules, "oldfour") == "four"
  {
    assert ToLower("old_four") == "old_four";
    assert ToLower("oldfour") == "oldfour";
  }

  /**
   * "old_four" and "oldfour" both translate to "four": the first one visited
   * moves, the other stays, so the result depends on Go's iteration order.
   */
  lemma CollidingKeysDependOnOrder()
    ensures var m := map["old_four" := "value4", "oldfour" := "other4"];
            && Translate(m, TypePtrToStructRules, ["old_four", "oldfour"]) == map["four" := "value4", "oldfour" := "other4"]
            && Translate(m, TypePtrToStructRules, ["oldfour", "old_four"]) == map["four" := "other4", "old_four" := "value4"]
  {
    var m := map["old_four" := "value4", "oldfour" := "other4"];
    PtrRulesCollide();
    FirstVisitedWins(TypePtrToStructRules, m, "old_four", "oldfour");
    FirstVisitedWins(TypePtrToStructRules, m, "oldfour", "old_four");
  }

  /**
   * A chain of renames: k translates to c, which is present but itself
   * translates to d. When c is visited first it moves to d, and k then moves
   * into the place c has left, although c was present in the data.
   */
  lemma ChainOverridesPresent<V>(rules: Rules, m: map<string, V>, k: string, c: string)
    requires m.Keys == {k, c} && k != c
    requires IsDeprecated(rules, k) && CanonicalKey(rules, k) == c
    requires IsDeprecated(rules, c) && CanonicalKey(rules, c) !in m
    ensures Translate(m, rules, [c, k]) == map[c := m[k], CanonicalKey(rules, c) := m[c]]
  {
    var d := CanonicalKey(rules, c);
    var once := map[k := m[k], d := m[c]];
    assert Visit(m, rules, c) == once by {
      assert Visit(m, rules, c) == (m - {c})[d := m[c]];
      assert (m - {c}) == map[k := m[k]];
    }
    assert Translate(m, rules, [c]) == once by {
      assert [c][..0] == [];
    }
    assert Visit(once, rules, k) == (once - {k})[c := m[k]];
    assert once - {k} == map[d := m[c]];
    assert [c, k][..1] == [c];
  }

  /** A mapping in which the canonical key "One" is itself deprecated, for "Z". */
  const ChainedRules: Rules := map["oldone" := "One", "one" := "Z"]

  /**
   * Under a chain, "OldOne" is moved onto "One" even though "One" holds a value
   * when the loop starts: the promise that a present canonical key leaves the
   * deprecated key alone can fail under a chain.
   */
  lemma ChainedCanonicalOverwritten()
    ensures var m := map["OldOne" := 1, "One" := 2];
            Translate(m, ChainedRules, ["One", "OldOne"]) == map["One" := 1, "Z" := 2]
  {
    assert ToLower("OldOne") == "oldone";
    assert ToLower("One") == "one";
    ChainOverridesPresent(ChainedRules, map["OldOne" := 1, "One" := 2], "OldOne", "One");
  }

  /**
   * How HookTranslateKeys picks the rules for the test types: TypeStruct's
   * value receiver and TypePtrToStruct's pointer receiver both supply their
   * mapping for a map, while a pointer destination is passed through untouched.
   */
  lemma ReceiverDispatch(data: Value)
    requires data.MapOf?
    ensures TranslationRules(Type(Struct, ValueReceiver(TypeStructRules)), data) == Some(TypeStructRules)
    ensures TranslationRules(Type(Struct, PointerReceiver(TypePtrToStructRules)), data) == Some(TypePtrToStructRules)
    ensures TranslationRules(Type(Ptr, ValueReceiver(TypeStructRules)), data) == None
    ensures TranslationRules(Type(Ptr, PointerReceiver(TypePtrToStructRules)), data) == None
  {
  }

  /**
   * The struct-receiver test case run through the hook itself: a fresh map is
   * translated in place, whatever order the loop picks.
   */
  method StructReceiverHook() returns (entries: map<string, Value>)
    ensures entries == map["None" := Str("no translation"), "One" := Str("value1"), "two" := Str("value2")]
  {
    var target := new StringMap(map["None" := Str("no translation"), "OldOne" := Str("value1"), "oldtwo" := Str("value2")]);
    var to := Type(Struct, ValueReceiver(TypeStructRules));
    var res, order := HookTranslateKeys(Type(Map, NoKeyMapping), to, MapOf(target));
    StructRulesClassify();
    OneKeptTwoMoved(TypeStructRules, order, "None", Str("no translation"), "OldOne", Str("value1"), "oldtwo", Str("value2"));
    entries := target.entries;
  }
}

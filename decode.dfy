/**
 * The two mapstructure decode hooks of package decode: HookTranslateKeys,
 * which renames deprecated map keys to canonical ones in place, and
 * HookNormalizeHCLNestedBlocks, which unwraps an HCL nested block stored as a
 * one-element slice of maps.
 */
module Decode {
  import opened Strings
  import opened KeyTranslation
  import opened Values

  /** The only error a hook reports: a nested block with more than one element, carrying the offending data. */
  datatype DecodeError = NestedBlockUnsupported(data: Value)

  /** What a hook hands back to the decoder: `(interface{}, error)`. */
  datatype HookResult = HookResult(value: Value, err: Option<DecodeError>)

  // ---------------------------------------------------------------------------
  // HookTranslateKeys
  // ---------------------------------------------------------------------------

  /**
   * The key mapping of a KeyTranslator, asked of a zero value when T itself
   * implements the interface and of a new *T when only the pointer does.
   * Both receiver forms are recognised and give the type's mapping.
   */
  function KeyMapping(to: Type): (r: Option<Rules>)
    ensures r.Some? <==> !to.decodeKeyMapping.NoKeyMapping?
    ensures r.Some? ==> r.value == to.decodeKeyMapping.mapping
  {
    if to.Implements() then Some(to.decodeKeyMapping.mapping)
    else if to.PtrToImplements() then Some(to.decodeKeyMapping.mapping)
    else None
  }

  /**
   * The rules HookTranslateKeys applies to `data` for destination `to`, or
   * None when it returns early: a pointer destination (the decoder calls the
   * hook again with the element type), data that is not a
   * map[string]interface{}, or a type that is no KeyTranslator.
   */
  function TranslationRules(to: Type, data: Value): (r: Option<Rules>)
    ensures r.Some? <==> to.kind != Ptr && data.MapOf? && !to.decodeKeyMapping.NoKeyMapping?
    ensures r.Some? ==> r.value == to.decodeKeyMapping.mapping
  {
    if to.kind == Ptr then None
    else if !data.MapOf? then None
    else KeyMapping(to)
  }

  /**
   * Translates deprecated keys of a map[string]interface{} to their canonical
   * keys, in place: the `range` loop visits each key of the original map once,
   * in an unspecified order (recorded in `order`), and moves the value of a
   * deprecated key to its canonical key when that key is absent. Never fails,
   * and returns `data` itself, so the caller sees the updated map.
   */
  method HookTranslateKeys(from: Type, to: Type, data: Value) returns (res: HookResult, ghost order: seq<string>)
    modifies if data.MapOf? then {data.target} else {}
    ensures res == HookResult(data, None)
    ensures data.MapOf? ==>
              match TranslationRules(to, data)
              case None => data.target.entries == old(data.target.entries)
              case Some(rules) =>
                && Enumerates(order, old(data.target.entries))
                && data.target.entries == Translate(old(data.target.entries), rules, order)
  {
    res, order := HookResult(data, None), [];
    if to.kind == Ptr {
      return;
    }
    if !data.MapOf? {
      return;
    }
    var target := data.target;
    var rules: Rules;
    if to.Implements() {
      rules := to.decodeKeyMapping.mapping;
    } else if to.PtrToImplements() {
      rules := to.decodeKeyMapping.mapping;
    } else {
      return;
    }

    ghost var original := target.entries;
    var pending := target.entries.Keys;
    while pending != {}
      invariant pending <= original.Keys
      invariant Visits(order, original)
      invariant forall k :: k in original ==> (k in pending <==> k !in order)
      invariant target.entries == Translate(original, rules, order)
      decreases pending
    {
      var k :| k in pending;
      VisitNext(original, rules, order, k);
      pending := pending - {k};
      var v := target.entries[k];
      var lowerK := ToLower(k);
      if lowerK in rules {
        var canonKey := rules[lowerK];
        if canonKey !in target.entries {
          target.entries := target.entries - {k};
          target.entries := target.entries[canonKey := v];
        }
      }
      order := order + [k];
    }
  }

  // ---------------------------------------------------------------------------
  // HookNormalizeHCLNestedBlocks
  // ---------------------------------------------------------------------------

  /** The destination genuinely wants a sequence: a slice or an array fed from a slice. */
  predicate SequenceToSequence(from: Type, to: Type) {
    from.kind == Slice && (to.kind == Slice || to.kind == Array)
  }

  /**
   * Unwraps a []map[string]interface{} holding one nested block when the
   * destination is not a sequence: no element gives nil, one element gives
   * that map, more than one is an error. Anything else passes through.
   */
  function HookNormalizeHCLNestedBlocks(from: Type, to: Type, data: Value): (r: HookResult)
    ensures SequenceToSequence(from, to) || !data.MapSlice? ==> r == HookResult(data, None)
    ensures r.err.Some? <==> !SequenceToSequence(from, to) && data.MapSlice? && |data.maps| > 1
    ensures r.err.Some? ==> r == HookResult(data, Some(NestedBlockUnsupported(data)))
    ensures !SequenceToSequence(from, to) && data.MapSlice? && |data.maps| == 0 ==> r == HookResult(Nil, None)
    ensures !SequenceToSequence(from, to) && data.MapSlice? && |data.maps| == 1 ==>
              r == HookResult(MapOf(data.maps[0]), None)
    ensures to.kind != Slice && to.kind != Array && r.err.None? ==> !r.value.MapSlice?
  {
    if SequenceToSequence(from, to) then HookResult(data, None)
    else
      match data
      case MapSlice(d) =>
        if |d| == 0 then HookResult(Nil, None)
        else if |d| == 1 then HookResult(MapOf(d[0]), None)
        else HookResult(data, Some(NestedBlockUnsupported(data)))
      case _ => HookResult(data, None)
  }

  /** Wrapping one map as a single HCL block and normalizing it for a non-sequence destination gives that map back. */
  lemma UnwrapSingleBlock(from: Type, to: Type, m: StringMap)
    requires to.kind != Slice && to.kind != Array
    ensures HookNormalizeHCLNestedBlocks(from, to, MapSlice([m])) == HookResult(MapOf(m), None)
  {
  }

  /**
   * Normalizing the hook's own result again with the same type arguments gives
   * the same result. The host decoder would pass an unwrapped map with its own
   * source type; this lemma is only about repeating the call unchanged.
   */
  lemma NormalizeIdempotent(from: Type, to: Type, data: Value)
    ensures var r := HookNormalizeHCLNestedBlocks(from, to, data);
            HookNormalizeHCLNestedBlocks(from, to, r.value) == r
  {
  }
}

/**
 * The dynamic values and type descriptors the decode hooks receive from the
 * host decoder: an `interface{}` value, and the part of a `reflect.Type` the
 * hooks look at (its kind and whether it implements KeyTranslator).
 */
module Values {

  datatype Option<T> = None | Some(value: T)

  /** A reflect.Kind, reduced to the kinds the hooks tell apart. */
  datatype Kind = Ptr | Struct | Slice | Array | Map | OtherKind

  /**
   * Whether and how a type declares the KeyTranslator method DecodeKeyMapping,
   * and the mapping (lower-case deprecated key -> canonical key) it returns.
   * The mapping is fixed per type: it does not depend on the instance.
   */
  datatype KeyMappingMethod =
    | NoKeyMapping
    | ValueReceiver(mapping: map<string, string>)
    | PointerReceiver(mapping: map<string, string>)

  /** A destination or source type descriptor. */
  datatype Type = Type(kind: Kind, decodeKeyMapping: KeyMappingMethod) {

    /** T implements KeyTranslator: only a value-receiver DecodeKeyMapping is in the method set of T. */
    predicate Implements() {
      decodeKeyMapping.ValueReceiver?
    }

    /** *T implements KeyTranslator: the method set of *T holds DecodeKeyMapping with either receiver. */
    predicate PtrToImplements() {
      decodeKeyMapping.ValueReceiver? || decodeKeyMapping.PointerReceiver?
    }
  }

  /** A Go `map[string]interface{}`: a reference whose entries are updated in place. */
  class StringMap {
    var entries: map<string, Value>

    constructor (entries: map<string, Value>)
      ensures this.entries == entries
    {
      this.entries := entries;
    }
  }

  /** An `interface{}` value produced by parsing JSON or HCL. */
  datatype Value =
    | Nil
    | Bool(b: bool)
    | Int(i: int)
    | Str(s: string)
    | MapOf(target: StringMap)          // map[string]interface{}
    | MapSlice(maps: seq<StringMap>)    // []map[string]interface{}
    | List(items: seq<Value>)           // []interface{} and other slices
}

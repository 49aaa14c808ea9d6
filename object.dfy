/**
 * The Object base of heap values (source/types/object.cpp): a type tag and
 * content equality that delegates to the String kind.
 */
module Objects {
  import opened Wrappers
  import opened LuxStrings

  /**
   * Object::asString: the checked downcast (`dynamic_cast`). String is the only
   * kind of object, so the cast succeeds on every object tagged String and
   * yields the same object.
   */
  function AsString(o: LuxString): (s: Option<LuxString>)
    ensures s.Some? <==> o.objectType == StringType
    ensures s.Some? ==> s.value == o
  {
    if o.objectType == StringType then Some(o) else None
  }

  /** Object::operator==: the tags must agree, then String objects compare as Strings. */
  predicate ObjectsEqual(a: LuxString, b: LuxString)
    reads a, b
  {
    a.objectType == b.objectType &&
    match a.objectType
    case StringType => AsString(a).value.Equals(AsString(b).value)
  }

  /**
   * Object equality is content equality, not identity: two valid String objects,
   * distinct or not, are equal exactly when their buffers hold the same bytes.
   */
  lemma ObjectsEqualIsContentEquality(a: LuxString, b: LuxString)
    requires a.Valid() && b.Valid()
    ensures ObjectsEqual(a, b) <==> a.buffer == b.buffer
  {
    StrEqualIsBufferEquality(a.Data(), b.Data());
  }

  /** Object equality is reflexive and symmetric. */
  lemma ObjectsEqualReflexiveSymmetric(a: LuxString, b: LuxString)
    ensures ObjectsEqual(a, a)
    ensures ObjectsEqual(a, b) <==> ObjectsEqual(b, a)
  {
  }
}

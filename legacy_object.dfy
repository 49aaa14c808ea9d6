/**
 * The older snapshot of the object model (source/object.cpp): the same Object
 * equality, over a String that keeps a size and a buffer but no hash.
 */
module LegacyObjects {
  import opened Wrappers
  import opened LuxStrings

  /** The two fields of an older String: m_size and m_buffer (None for a null buffer). */
  datatype LegacyData = LegacyData(size: nat, buffer: Option<seq<Byte>>)
  {
    function Bytes(): seq<Byte>
    {
      if buffer.Some? then buffer.value else []
    }

    predicate WellFormed()
    {
      |Bytes()| == size
    }

    predicate Terminated()
    {
      size >= 1 && WellFormed() && Bytes()[size - 1] == 0
    }
  }

  /** The older String::operator==: equal sizes and equal bytes. */
  predicate LegacyEqual(a: LegacyData, b: LegacyData)
  {
    a.size == b.size && a.Bytes() == b.Bytes()
  }

  /** The state left in the target of the older +=. */
  function LegacyConcatenated(a: LegacyData, b: LegacyData): (d: LegacyData)
    requires a.size >= 1 && a.WellFormed() && b.WellFormed()
    ensures d.WellFormed() && d.buffer.Some?
    ensures d.size == a.size + b.size - 1
  {
    LegacyData(a.size + b.size - 1, Some(a.Bytes()[..a.size - 1] + b.Bytes()))
  }

  /** The older += joins the texts of two terminated Strings and keeps one terminator. */
  lemma LegacyConcatenatedText(a: LegacyData, b: LegacyData)
    requires a.Terminated() && b.Terminated()
    ensures LegacyConcatenated(a, b).Terminated()
    ensures LegacyConcatenated(a, b).Bytes() == a.Bytes()[..a.size - 1] + b.Bytes()[..b.size - 1] + [0]
  {
    assert b.Bytes() == b.Bytes()[..b.size - 1] + [0];
  }

  /**
   * Dropping the hash did not change what equality means: on the same sizes and
   * buffers, the older comparison agrees with the hashed one for valid Strings.
   */
  lemma LegacyEqualAgreesWithHashed(a: StringData, b: StringData)
    requires a.Valid() && b.Valid() && !a.IsNull() && !b.IsNull()
    ensures LegacyEqual(LegacyData(a.size, a.buffer), LegacyData(b.size, b.buffer)) <==> StrEqual(a, b)
  {
  }

  /** An older String object; objectType is the tag of its Object base. */
  class LegacyString {
    const objectType: ObjectType
    var size: nat
    var buffer: Option<seq<Byte>>

    function Data(): LegacyData
      reads this
    {
      LegacyData(size, buffer)
    }

    /** String(const char* str, size_t length): length bytes of str followed by '\0'. */
    constructor FromChars(str: seq<Byte>, length: nat)
      requires length <= |str|
      ensures objectType == StringType
      ensures size == length + 1 && buffer == Some(str[..length] + [0])
      ensures Data().Terminated()
    {
      objectType := StringType;
      size := length + 1;
      buffer := Some(str[..length] + [0]);
    }

    predicate Equals(rhs: LegacyString)
      reads this, rhs
    {
      LegacyEqual(Data(), rhs.Data())
    }

    /** operator+=: grows by rhs's size minus one; rhs is left as it was. */
    method Append(rhs: LegacyString)
      requires size >= 1 && Data().WellFormed() && rhs.Data().WellFormed()
      modifies this
      ensures Data() == LegacyConcatenated(old(Data()), old(rhs.Data()))
      ensures rhs != this ==> unchanged(rhs)
    {
      var newSize := size + rhs.size - 1;
      var newBuffer := Data().Bytes()[..size - 1] + rhs.Data().Bytes();
      size, buffer := newSize, Some(newBuffer);
    }
  }

  /** The older Object::asString, the same `dynamic_cast` over a hierarchy whose only kind is the older String. */
  function LegacyAsString(o: LegacyString): (s: Option<LegacyString>)
    ensures s.Some? <==> o.objectType == StringType
    ensures s.Some? ==> s.value == o
  {
    if o.objectType == StringType then Some(o) else None
  }

  /** The older Object::operator==: tags first, then the String comparison. */
  predicate LegacyObjectsEqual(a: LegacyString, b: LegacyString)
    reads a, b
  {
    a.objectType == b.objectType &&
    match a.objectType
    case StringType => LegacyAsString(a).value.Equals(LegacyAsString(b).value)
  }

  /** Older object equality compares contents: well-formed Strings are equal exactly when their bytes are. */
  lemma LegacyObjectsEqualIsContentEquality(a: LegacyString, b: LegacyString)
    requires a.Data().WellFormed() && b.Data().WellFormed()
    ensures LegacyObjectsEqual(a, b) <==> a.Data().Bytes() == b.Data().Bytes()
  {
  }
}

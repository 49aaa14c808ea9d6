/**
 * The tagged runtime Value (source/value.cpp): nil, a boolean, a number or a
 * reference to a heap Object. Numbers are modelled as mathematical reals.
 */
module Values {
  import opened LuxStrings
  import opened Objects

  /** Value::Type, the discriminant of the union. */
  datatype ValueTag = NilTag | BoolTag | NumberTag | ObjectTag

  /** A Value: the tag together with the one payload field it selects. An Obj refers to, and does not own, its object. */
  datatype Value = Nil | Bool(boolean: bool) | Number(number: real) | Obj(obj: LuxString)
  {
    function Tag(): ValueTag
    {
      match this
      case Nil => NilTag
      case Bool(_) => BoolTag
      case Number(_) => NumberTag
      case Obj(_) => ObjectTag
    }

    /** Value::isString: an object whose own tag is String. */
    predicate IsString()
    {
      Obj? && obj.objectType == StringType
    }
  }

  /** The objects a value refers to. */
  function Footprint(v: Value): set<object>
  {
    if v.Obj? then {v.obj} else {}
  }

  function MakeNil(): (v: Value)
    ensures v.Tag() == NilTag
  {
    Nil
  }

  function MakeBool(b: bool): (v: Value)
    ensures v.Tag() == BoolTag && v.boolean == b
  {
    Bool(b)
  }

  function MakeNumber(n: real): (v: Value)
    ensures v.Tag() == NumberTag && v.number == n
  {
    Number(n)
  }

  function MakeObject(o: LuxString): (v: Value)
    ensures v.Tag() == ObjectTag && v.obj == o
  {
    Obj(o)
  }

  /** Value::operator==: the tags must agree, then the payloads are compared; objects by content. */
  predicate ValuesEqual(a: Value, b: Value)
    reads Footprint(a), Footprint(b)
  {
    a.Tag() == b.Tag() &&
    match a
    case Bool(x) => x == b.boolean
    case Nil => true
    case Number(n) => n == b.number
    case Obj(o) => ObjectsEqual(o, b.obj)
  }

  /** Value::operator!=. */
  predicate ValuesNotEqual(a: Value, b: Value)
    reads Footprint(a), Footprint(b)
  {
    !ValuesEqual(a, b)
  }

  /**
   * What == means, case by case: values of different tags are never equal, nil
   * equals nil, booleans and numbers compare their payloads, and objects (valid
   * Strings) compare their bytes, whether or not they are the same object.
   */
  lemma ValuesEqualCases(a: Value, b: Value)
    requires a.Obj? ==> a.obj.Valid()
    requires b.Obj? ==> b.obj.Valid()
    ensures a.Tag() != b.Tag() ==> !ValuesEqual(a, b)
    ensures a.Nil? && b.Nil? ==> ValuesEqual(a, b)
    ensures a.Bool? && b.Bool? ==> (ValuesEqual(a, b) <==> a.boolean == b.boolean)
    ensures a.Number? && b.Number? ==> (ValuesEqual(a, b) <==> a.number == b.number)
    ensures a.Obj? && b.Obj? ==> (ValuesEqual(a, b) <==> a.obj.buffer == b.obj.buffer)
  {
    if a.Obj? && b.Obj? {
      ObjectsEqualIsContentEquality(a.obj, b.obj);
    }
  }

  /** nil, false and the number 0 are pairwise unequal, in both directions. */
  lemma NilFalseZeroDistinct()
    ensures !ValuesEqual(Nil, Bool(false)) && !ValuesEqual(Bool(false), Nil)
    ensures !ValuesEqual(Nil, Number(0.0)) && !ValuesEqual(Number(0.0), Nil)
    ensures !ValuesEqual(Bool(false), Number(0.0)) && !ValuesEqual(Number(0.0), Bool(false))
  {
  }

  /** With numbers modelled as reals, == on values is reflexive and symmetric, and != is its negation. */
  lemma ValuesEqualReflexiveSymmetric(a: Value, b: Value)
    ensures ValuesEqual(a, a)
    ensures ValuesEqual(a, b) <==> ValuesEqual(b, a)
    ensures ValuesNotEqual(a, b) <==> !ValuesEqual(a, b)
  {
    if a.Obj? {
      ObjectsEqualReflexiveSymmetric(a.obj, a.obj);
      if b.Obj? {
        ObjectsEqualReflexiveSymmetric(a.obj, b.obj);
      }
    }
  }
}

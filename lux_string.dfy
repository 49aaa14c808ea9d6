/**
 * The heap String of the interpreter (source/types/string.cpp): a byte buffer that
 * owns its terminating '\0', its size (terminator included) and a cached 32-bit
 * FNV-1a hash of the whole buffer.
 */
module LuxStrings {
  import opened Wrappers

  type Byte = bv8

  /** The 32-bit FNV-1a offset basis and prime. */
  const FnvOffsetBasis: bv32 := 2166136261
  const FnvPrime: bv32 := 16777619

  /** One FNV-1a round: xor the byte in, then multiply by the prime (bv32 arithmetic wraps mod 2^32). */
  function FnvStep(hash: bv32, b: Byte): bv32
  {
    (hash ^ (b as bv32)) * FnvPrime
  }

  /** FnvStep folded over the bytes from first to last, starting from hash. */
  function FnvFold(hash: bv32, bytes: seq<Byte>): bv32
    decreases |bytes|
  {
    if bytes == [] then hash else FnvFold(FnvStep(hash, bytes[0]), bytes[1..])
  }

  /** The 32-bit FNV-1a hash of a byte sequence. */
  function Fnv1a(bytes: seq<Byte>): bv32
  {
    FnvFold(FnvOffsetBasis, bytes)
  }

  /** Hashing a concatenation continues from the hash of its first part. */
  lemma {:induction false} FnvFoldAppend(hash: bv32, a: seq<Byte>, b: seq<Byte>)
    ensures FnvFold(hash, a + b) == FnvFold(FnvFold(hash, a), b)
    decreases |a|
  {
    if a != [] {
      assert (a + b)[1..] == a[1..] + b;
      FnvFoldAppend(FnvStep(hash, a[0]), a[1..], b);
    } else {
      assert a + b == b;
    }
  }

  /** Appending one byte to a hashed sequence costs one more FNV-1a round. */
  lemma Fnv1aSnoc(bytes: seq<Byte>, b: Byte)
    ensures Fnv1a(bytes + [b]) == FnvStep(Fnv1a(bytes), b)
  {
    FnvFoldAppend(FnvOffsetBasis, bytes, [b]);
  }

  /** hashString: the loop over the first length bytes of key. */
  method HashString(key: seq<Byte>, length: nat) returns (hash: bv32)
    requires length <= |key|
    ensures hash == Fnv1a(key[..length])
  {
    hash := FnvOffsetBasis;
    var i := 0;
    while i < length
      invariant 0 <= i <= length
      invariant Fnv1a(key[..i]) == hash
    {
      Fnv1aSnoc(key[..i], key[i]);
      assert key[..i + 1] == key[..i] + [key[i]];
      hash := FnvStep(hash, key[i]);
      i := i + 1;
    }
  }

  /** The type tag of the Object base class; String is its only kind. */
  datatype ObjectType = StringType

  /**
   * The three fields of a String object: m_size, m_hash and m_buffer
   * (None stands for a null m_buffer).
   */
  datatype StringData = StringData(size: nat, hash: bv32, buffer: Option<seq<Byte>>)
  {
    predicate IsNull()
    {
      buffer.None?
    }

    /** The bytes the buffer holds; a null buffer holds none. */
    function Bytes(): seq<Byte>
    {
      if buffer.Some? then buffer.value else []
    }

    /** The buffer holds exactly size bytes (every String the source builds has this shape). */
    predicate WellFormed()
    {
      |Bytes()| == size
    }

    /** The cached hash is the FNV-1a hash of the whole buffer; a null String has hash 0. */
    predicate Valid()
    {
      WellFormed() &&
      (IsNull() ==> hash == 0) &&
      (!IsNull() ==> hash == Fnv1a(Bytes()))
    }

    /** The buffer ends with its '\0' terminator. */
    predicate Terminated()
    {
      size >= 1 && WellFormed() && Bytes()[size - 1] == 0
    }

    /** The text of a terminated String: its bytes without the terminator. */
    function Text(): seq<Byte>
      requires Terminated()
    {
      Bytes()[..size - 1]
    }
  }

  /** The state of a null String: what the default constructor and a move leave behind. */
  const NullString := StringData(0, 0, None)

  /** String::operator==: equal hashes, equal sizes and equal bytes. */
  predicate StrEqual(a: StringData, b: StringData)
  {
    a.hash == b.hash && a.size == b.size && a.Bytes() == b.Bytes()
  }

  /** Between valid Strings the hash comparison never changes the answer: equality is equality of buffers. */
  lemma StrEqualIsBufferEquality(a: StringData, b: StringData)
    requires a.Valid() && b.Valid()
    ensures StrEqual(a, b) <==> a.buffer == b.buffer
  {
    assert Fnv1a([]) == FnvOffsetBasis;
  }

  /** Between non-null Strings, operator== is plain equality of the three fields. */
  lemma StrEqualNonNullIsEquality(a: StringData, b: StringData)
    requires !a.IsNull() && !b.IsNull()
    ensures StrEqual(a, b) <==> a == b
  {
  }

  /** The state a String takes when it is built from the first length bytes of str. */
  function FromBytes(str: seq<Byte>, length: nat): (d: StringData)
    requires length <= |str|
    ensures d.Valid() && d.Terminated() && !d.IsNull()
    ensures d.size == length + 1 && d.Text() == str[..length]
  {
    var bytes := str[..length] + [0];
    StringData(length + 1, Fnv1a(bytes), Some(bytes))
  }

  /** The state left in the target of a += : the target's bytes without the terminator, then all of rhs's bytes. */
  function Concatenated(a: StringData, b: StringData): (d: StringData)
    requires a.size >= 1 && a.WellFormed() && b.WellFormed()
    ensures d.Valid() && !d.IsNull()
  {
    var bytes := a.Bytes()[..a.size - 1] + b.Bytes();
    StringData(a.size + b.size - 1, Fnv1a(bytes), Some(bytes))
  }

  /** Concatenating two terminated Strings concatenates their texts and keeps one terminator. */
  lemma ConcatenatedText(a: StringData, b: StringData)
    requires a.Terminated() && b.Terminated()
    ensures Concatenated(a, b).Terminated()
    ensures Concatenated(a, b).Text() == a.Text() + b.Text()
  {
    var d := Concatenated(a, b);
    assert d.Bytes() == a.Text() + b.Text() + [0];
  }

  /** A String object; objectType is the tag of its Object base. */
  class LuxString {
    const objectType: ObjectType
    var size: nat
    var hash: bv32
    var buffer: Option<seq<Byte>>

    function Data(): StringData
      reads this
    {
      StringData(size, hash, buffer)
    }

    predicate Valid()
      reads this
    {
      Data().Valid()
    }

    /** String(): a null String. */
    constructor Empty()
      ensures objectType == StringType && Data() == NullString && Valid()
    {
      objectType := StringType;
      size, hash, buffer := 0, 0, None;
    }

    /** String(const char* str, size_t length): copies length bytes, adds the terminator and hashes all of it. */
    constructor FromChars(str: seq<Byte>, length: nat)
      requires length <= |str|
      ensures objectType == StringType
      ensures buffer == Some(str[..length] + [0]) && size == length + 1
      ensures hash == Fnv1a(str[..length] + [0])
      ensures Data() == FromBytes(str, length) && Valid()
    {
      var bytes := str[..length] + [0];
      var h := HashString(bytes, length + 1);
      assert bytes[..length + 1] == bytes;
      objectType := StringType;
      size, hash, buffer := length + 1, h, Some(bytes);
    }

    /** The copy constructor: allocates size bytes and copies them, with the size and hash. */
    constructor Copy(other: LuxString)
      requires other.Data().WellFormed()
      ensures objectType == StringType
      ensures size == other.size && hash == other.hash && buffer == Some(other.Data().Bytes())
      ensures StrEqual(Data(), other.Data())
      ensures other.Valid() && !other.Data().IsNull() ==> Valid()
    {
      objectType := StringType;
      size, hash, buffer := other.size, other.hash, Some(other.Data().Bytes());
    }

    /** The move constructor: takes the buffer and leaves other null. */
    constructor Move(other: LuxString)
      modifies other
      ensures objectType == StringType
      ensures Data() == old(other.Data())
      ensures other.Data() == NullString
    {
      objectType := StringType;
      size, hash, buffer := other.size, other.hash, other.buffer;
      new;
      other.size, other.hash, other.buffer := 0, 0, None;
    }

    /** operator==. */
    predicate Equals(rhs: LuxString)
      reads this, rhs
    {
      StrEqual(Data(), rhs.Data())
    }

    /** operator+=: replaces the buffer by this text followed by all of rhs's bytes and rehashes it. */
    method Append(rhs: LuxString)
      requires size >= 1 && Data().WellFormed() && rhs.Data().WellFormed()
      modifies this`size, this`hash, this`buffer
      ensures Data() == Concatenated(old(Data()), old(rhs.Data())) && Valid()
      ensures size == old(size) + old(rhs.size) - 1
      ensures rhs != this ==> unchanged(rhs)
    {
      var newSize := size + rhs.size - 1;
      var newBuffer := Data().Bytes()[..size - 1] + rhs.Data().Bytes();
      var h := HashString(newBuffer, newSize);
      assert newBuffer[..newSize] == newBuffer;
      size, buffer, hash := newSize, Some(newBuffer), h;
    }

    /** Move assignment: a no-op on itself, otherwise takes other's buffer and leaves other null. */
    method MoveAssign(other: LuxString)
      modifies this, other
      ensures other == this ==> unchanged(this)
      ensures other != this ==> Data() == old(other.Data()) && other.Data() == NullString
    {
      if other == this {
        return;
      }
      size, hash, buffer := other.size, other.hash, other.buffer;
      other.size, other.hash, other.buffer := 0, 0, None;
    }

    /**
     * Copy assignment: a no-op on itself; otherwise a buffer of other's size is
     * reallocated only when the sizes differ, and other's hash and bytes are copied.
     */
    method CopyAssign(other: LuxString)
      requires other.Data().WellFormed() && Data().WellFormed()
      modifies this
      ensures other == this ==> unchanged(this)
      ensures size == old(other.size) && hash == old(other.hash) && Data().Bytes() == old(other.Data().Bytes())
      ensures StrEqual(Data(), old(other.Data()))
      ensures other != this ==> (Data().IsNull() <==> old(Data().IsNull()) && old(size) == old(other.size))
      ensures old(other.Valid()) && !old(other.Data().IsNull()) && !Data().IsNull() ==> Valid()
      ensures unchanged(other)
    {
      if other == this {
        return;
      }
      if size != other.size {
        size := other.size;
        buffer := Some(other.Data().Bytes());
      } else if buffer.Some? {
        buffer := Some(other.Data().Bytes());
      }
      hash := other.hash;
    }
  }
}

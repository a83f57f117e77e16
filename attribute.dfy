// Attributes (data/attribute.go): typed values hung off vertices and edges. A record is 15
// bytes: the label id naming the attribute (its key), a type tag, 8 bytes of raw value and the
// id of the owner's next attribute (0 ends the owner's chain).

module Attributes {
  import opened Conversion
  import Labels

  const AttributeDataSize: nat := 15

  // the type tags
  const EmptyT: byte := 0x00
  const IntegerT: byte := 0x01
  const RealT: byte := 0x02
  const BooleanT: byte := 0x03
  const TextT: byte := 0x04
  const ListT: byte := 0x05
  const MapT: byte := 0x06

  datatype Attribute = Attribute(Id: u32, labelId: u16, t: byte, data: Bytes, next: u32)

  /** `constructAttribute`: the caller must pass exactly 15 bytes; label 0:2, tag 2, raw value
      3:11 and next 11:15. The conversion errors it tests for cannot happen on slices of these
      lengths. */
  function ConstructAttribute(id: u32, b: Bytes): (r: Attribute)
    requires |b| == AttributeDataSize
    ensures r.Id == id && r.labelId == LittleEndian(b[0..2]) && r.t == b[2]
    ensures r.data == b[3..11] && |r.data| == 8 && r.next == LittleEndian(b[11..15])
  {
    Attribute(id, Field16(b, 0), b[2], b[3..11], Field32(b, 11))
  }

  /** The record layout `constructAttribute` decodes. The Go code writes no attribute records;
      this is the encoding that layout fixes, used to state what decoding recovers. */
  function AttributeLayout(a: Attribute): (r: Bytes)
    requires |a.data| == 8
    ensures |r| == AttributeDataSize
  {
    Uint16ToBytes(a.labelId) + [a.t] + a.data + Uint32ToBytes(a.next)
  }

  /** Decoding the layout of an attribute with an 8-byte value gives the attribute back. */
  lemma {:induction false} ConstructLayout(a: Attribute)
    requires |a.data| == 8
    ensures ConstructAttribute(a.Id, AttributeLayout(a)) == a
  {
    var b := AttributeLayout(a);
    assert b[0..2] == Uint16ToBytes(a.labelId);
    assert b[3..11] == a.data;
    assert b[11..15] == Uint32ToBytes(a.next);
  }

  /** Every 15-byte record is the layout of the attribute it decodes to. */
  lemma {:induction false} LayoutConstruct(id: u32, b: Bytes)
    requires |b| == AttributeDataSize
    ensures AttributeLayout(ConstructAttribute(id, b)) == b
  {
    EncodeOfLittleEndian(b[0..2]);
    EncodeOfLittleEndian(b[11..15]);
    assert b == b[0..2] + [b[2]] + b[3..11] + b[11..15];
  }

  /** What `Value` hands back. `Real` keeps the raw 8 bytes (the float conversion is not
      modelled); `Nil` is the nil value of a tag the switch does not list. */
  datatype Value = Integer(n: u64) | Real(bits: Bytes) | Boolean(b: bool) | Text(s: Bytes)
                 | List(listId: u32) | Map(mapId: u32) | Nil

  /** `Value`: decode the raw bytes according to the tag. `empty_t` (a removed attribute) is an
      error, as is a raw value shorter than 8 bytes for the tags that decode it as a uint64; a
      list or map id is that uint64 truncated to uint32; text is the empty string. */
  function AttributeValue(a: Attribute): (r: Option<Value>)
    ensures r.None? <==> a.t == EmptyT || (a.t in {IntegerT, BooleanT, ListT, MapT} && |a.data| < 8)
    ensures r.Some? && r.value.Integer? <==> IsInteger(a) && |a.data| >= 8
    ensures r.Some? && r.value.Boolean? <==> IsBoolean(a) && |a.data| >= 8
    ensures r.Some? && r.value.List? <==> IsList(a) && |a.data| >= 8
    ensures r.Some? && r.value.Real? <==> IsReal(a)
    ensures r.Some? && r.value.Text? <==> IsText(a)
    ensures r.Some? && r.value.Nil? <==> a.t > MapT
    ensures |a.data| >= 8 ==> var n := BytesToUint64(a.data).value;
      && (IsInteger(a) ==> r == Some(Integer(n)))
      && (IsBoolean(a) ==> r == Some(Boolean(n != 0)))
      && (IsList(a) ==> r == Some(List(n % TWO32)))
      && (a.t == MapT ==> r == Some(Map(n % TWO32)))
  {
    if a.t == EmptyT then None
    else if a.t == RealT then Some(Real(a.data))
    else if a.t == TextT then Some(Text([]))
    else if a.t > MapT then Some(Nil)
    else
      match BytesToUint64(a.data)
      case Err(_) => None
      case Ok(n) =>
        if a.t == IntegerT then Some(Integer(n))
        else if a.t == BooleanT then Some(Boolean(n != 0))
        else if a.t == ListT then Some(List(n % TWO32))
        else Some(Map(n % TWO32))
  }

  /** `Value` as written. The uint64 is stored in `val`, whose type is the empty interface
      `Any`, so `val == 0` at attribute.go:78 compares it with the constant 0 as an `int`. An
      interface holding a uint64 never equals an int, so every boolean decodes as true. Every
      other tag is decoded as `AttributeValue` decodes it. */
  function AttributeValueAsWritten(a: Attribute): (r: Option<Value>)
    ensures r.None? <==> AttributeValue(a).None?
    ensures IsBoolean(a) && |a.data| >= 8 ==> r == Some(Boolean(true))
    ensures !IsBoolean(a) ==> r == AttributeValue(a)
  {
    if a.t == BooleanT && |a.data| >= 8 then Some(Boolean(true)) else AttributeValue(a)
  }

  /** Eight zero bytes: the intended decoding gives false, the code as written gives true. */
  lemma {:induction false} ZeroBooleanAsWritten()
    ensures var a := Attribute(1, 1, BooleanT, [0, 0, 0, 0, 0, 0, 0, 0], 0);
      && AttributeValueAsWritten(a) == Some(Boolean(true))
      && AttributeValue(a) == Some(Boolean(false))
  {
    var z: Bytes := [0, 0, 0, 0, 0, 0, 0, 0];
    assert z[..8] == z;
    assert LittleEndian(z[1..][1..][1..][1..][1..][1..][1..][1..]) == 0;
  }

  /** With the intended comparison, a boolean is false exactly when its 8 raw value bytes are
      all zero. */
  lemma {:induction false} BooleanFalseIffZero(a: Attribute)
    requires IsBoolean(a) && |a.data| >= 8
    ensures AttributeValue(a) == Some(Boolean(false)) <==> a.data[..8] == [0, 0, 0, 0, 0, 0, 0, 0]
  {
    var z: Bytes := [0, 0, 0, 0, 0, 0, 0, 0];
    assert LittleEndian(z[1..][1..][1..][1..][1..][1..][1..][1..]) == 0;
    if LittleEndian(a.data[..8]) == 0 {
      LittleEndianInjective(a.data[..8], z);
    }
  }

  predicate IsInteger(a: Attribute) { a.t == IntegerT }
  predicate IsText(a: Attribute) { a.t == TextT }
  predicate IsBoolean(a: Attribute) { a.t == BooleanT }
  predicate IsReal(a: Attribute) { a.t == RealT }
  predicate IsList(a: Attribute) { a.t == ListT }

  /** An attribute read from its record has an 8-byte raw value, so its value fails exactly
      when it is a removed (`empty_t`) one. */
  lemma {:induction false} ConstructedValue(id: u32, b: Bytes)
    requires |b| == AttributeDataSize
    ensures AttributeValue(ConstructAttribute(id, b)).None? <==> b[2] == EmptyT
  {
  }

  /** `Key`: the string of the attribute's label; None where the label cannot be found. */
  function Key(a: Attribute, names: Labels.Names): Option<Bytes> {
    names(a.labelId)
  }

  /** The key as callers that drop `Key`'s error see it: the empty string on failure. */
  function KeyOrEmpty(a: Attribute, names: Labels.Names): Bytes {
    match Key(a, names) case Some(k) => k case None => []
  }
}

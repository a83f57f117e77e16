// Fixed-width unsigned integers and their little-endian byte encoding
// (util/conversion.go). Every store lays its records out with these.

module Conversion {

  type byte = x: int | 0 <= x < 0x100
  type Bytes = seq<byte>
  type u8 = x: int | 0 <= x < 0x100
  type u16 = x: int | 0 <= x < 0x1_0000
  type u32 = x: int | 0 <= x < 0x1_0000_0000
  type u64 = x: int | 0 <= x < 0x1_0000_0000_0000_0000

  const TWO8: nat := 0x100
  const TWO16: nat := 0x1_0000
  const TWO32: nat := 0x1_0000_0000
  const TWO63: nat := 0x8000_0000_0000_0000
  const TWO64: nat := 0x1_0000_0000_0000_0000

  /** Why `binary.Read` failed: nothing to read, or fewer bytes than the width. */
  datatype CodecError = Eof | UnexpectedEof

  datatype Result<T> = Ok(value: T) | Err(error: CodecError) {
    /** The value a Go caller sees when it ignores the error: the zero value on failure. */
    function OrZero(zero: T): T {
      if Ok? then value else zero
    }
  }

  datatype Option<T> = None | Some(value: T)

  /** How a Go call ends where a failed `Assert` or a nil dereference can stop it. */
  datatype Outcome<T> = Panicked | Done(value: T)

  /** 256 to the power n: the number of distinct values n bytes can hold. */
  function Pow256(n: nat): (r: nat)
    ensures r >= 1
  {
    if n == 0 then 1 else 0x100 * Pow256(n - 1)
  }

  /** The number whose little-endian encoding is s (least significant byte first). */
  function LittleEndian(s: Bytes): nat
  {
    if |s| == 0 then 0 else s[0] + 0x100 * LittleEndian(s[1..])
  }

  /** The width-byte little-endian encoding of n. */
  function EncodeLE(n: nat, width: nat): (r: Bytes)
    requires n < Pow256(width)
    ensures |r| == width
    ensures LittleEndian(r) == n
  {
    if width == 0 then []
    else
      var low := n % 0x100;
      var rest := EncodeLE(n / 0x100, width - 1);
      assert [low] + rest == [low] + rest;
      assert ([low] + rest)[1..] == rest;
      [low] + rest
  }

  lemma {:induction false} LittleEndianBound(s: Bytes)
    ensures LittleEndian(s) < Pow256(|s|)
  {
    if |s| > 0 {
      LittleEndianBound(s[1..]);
      assert LittleEndian(s[1..]) + 1 <= Pow256(|s| - 1);
      assert 0x100 * (LittleEndian(s[1..]) + 1) <= 0x100 * Pow256(|s| - 1);
    }
  }

  /** Encoding the value of a byte string at its own width gives the string back. */
  lemma {:induction false} EncodeOfLittleEndian(s: Bytes)
    ensures LittleEndian(s) < Pow256(|s|)
    ensures EncodeLE(LittleEndian(s), |s|) == s
  {
    LittleEndianBound(s);
    if |s| > 0 {
      EncodeOfLittleEndian(s[1..]);
      var n := LittleEndian(s);
      assert n % 0x100 == s[0] && n / 0x100 == LittleEndian(s[1..]);
      assert EncodeLE(n, |s|) == [s[0]] + EncodeLE(LittleEndian(s[1..]), |s| - 1);
      assert [s[0]] + s[1..] == s;
    }
  }

  /** Two byte strings of the same width are equal iff their values are. */
  lemma {:induction false} LittleEndianInjective(a: Bytes, b: Bytes)
    requires |a| == |b| && LittleEndian(a) == LittleEndian(b)
    ensures a == b
  {
    EncodeOfLittleEndian(a);
    EncodeOfLittleEndian(b);
  }

  /** Decoding of a fixed-width field the way `binary.Read` does it: the first `width` bytes,
      an error when there are fewer. */
  function Decode(b: Bytes, width: nat): (r: Result<nat>)
    ensures r.Ok? <==> |b| >= width
    ensures r.Ok? ==> r.value == LittleEndian(b[..width]) && r.value < Pow256(width)
    ensures r == Err(Eof) <==> |b| == 0 && width > 0
  {
    if |b| >= width then
      LittleEndianBound(b[..width]);
      Ok(LittleEndian(b[..width]))
    else if |b| == 0 then Err(Eof)
    else Err(UnexpectedEof)
  }

  // util/conversion.go:43-48. `binary.Write` into a bytes.Buffer cannot fail, so the error
  // result is always nil and is not modelled.
  function Uint16ToBytes(n: u16): (r: Bytes)
    ensures |r| == 2 && r[0] == n % 0x100 && r[1] == n / 0x100
    ensures LittleEndian(r) == n
  {
    EncodeLE(n, 2)
  }

  function Uint32ToBytes(n: u32): (r: Bytes)
    ensures |r| == 4 && LittleEndian(r) == n
    ensures r[0] == n % 0x100
  {
    assert Pow256(4) == TWO32;
    EncodeLE(n, 4)
  }

  function Uint64ToBytes(n: u64): (r: Bytes)
    ensures |r| == 8 && LittleEndian(r) == n
    ensures r[0] == n % 0x100
  {
    assert Pow256(8) == TWO64;
    EncodeLE(n, 8)
  }

  function BytesToUint16(b: Bytes): (r: Result<u16>)
    ensures r.Ok? <==> |b| >= 2
    ensures r.Ok? ==> r.value == LittleEndian(b[..2])
    ensures r.Ok? ==> r.value == b[0] as int + 0x100 * b[1] as int
  {
    match Decode(b, 2)
    case Ok(v) =>
      assert b[..2][1..] == [b[1]];
      Ok(v)
    case Err(e) => Err(e)
  }

  function BytesToUint32(b: Bytes): (r: Result<u32>)
    ensures r.Ok? <==> |b| >= 4
    ensures r.Ok? ==> r.value == LittleEndian(b[..4])
  {
    assert Pow256(4) == TWO32;
    match Decode(b, 4)
    case Ok(v) => Ok(v)
    case Err(e) => Err(e)
  }

  function BytesToUint64(b: Bytes): (r: Result<u64>)
    ensures r.Ok? <==> |b| >= 8
    ensures r.Ok? ==> r.value == LittleEndian(b[..8])
  {
    assert Pow256(8) == TWO64;
    match Decode(b, 8)
    case Ok(v) => Ok(v)
    case Err(e) => Err(e)
  }

  // ---- Round trips ----

  lemma {:induction false} DecodeEncode16(n: u16)
    ensures BytesToUint16(Uint16ToBytes(n)) == Ok(n)
  {
    var r := Uint16ToBytes(n);
    assert r[..2] == r;
  }

  lemma {:induction false} DecodeEncode32(n: u32)
    ensures BytesToUint32(Uint32ToBytes(n)) == Ok(n)
  {
    var r := Uint32ToBytes(n);
    assert r[..4] == r;
  }

  lemma {:induction false} DecodeEncode64(n: u64)
    ensures BytesToUint64(Uint64ToBytes(n)) == Ok(n)
  {
    var r := Uint64ToBytes(n);
    assert r[..8] == r;
  }

  lemma {:induction false} EncodeDecode16(b: Bytes)
    requires |b| == 2
    ensures BytesToUint16(b).Ok? && Uint16ToBytes(BytesToUint16(b).value) == b
  {
    assert b[..2] == b;
    EncodeOfLittleEndian(b);
  }

  lemma {:induction false} EncodeDecode32(b: Bytes)
    requires |b| == 4
    ensures BytesToUint32(b).Ok? && Uint32ToBytes(BytesToUint32(b).value) == b
  {
    assert b[..4] == b;
    EncodeOfLittleEndian(b);
  }

  lemma {:induction false} EncodeDecode64(b: Bytes)
    requires |b| == 8
    ensures BytesToUint64(b).Ok? && Uint64ToBytes(BytesToUint64(b).value) == b
  {
    assert b[..8] == b;
    EncodeOfLittleEndian(b);
  }

  /** Bytes after the width are ignored: only a prefix of the slice is read. */
  lemma {:induction false} DecodeIgnoresTrailing(b: Bytes, extra: Bytes, width: nat)
    requires |b| >= width
    ensures Decode(b + extra, width) == Decode(b, width)
  {
    assert (b + extra)[..width] == b[..width];
  }

  /** Decoding a width-byte encoding followed by anything gives back the value. */
  lemma {:induction false} DecodeEncodePrefix(n: nat, width: nat, rest: Bytes)
    requires n < Pow256(width)
    ensures Decode(EncodeLE(n, width) + rest, width) == Ok(n)
  {
    var e := EncodeLE(n, width);
    assert (e + rest)[..width] == e;
  }

  // ---- Fixed fields of a record ----

  /** The 4 little-endian bytes at `b[i..i + 4]`, as `util.BytesToUint32` reads them. */
  function Field32(b: Bytes, i: nat): (r: u32)
    requires i + 4 <= |b|
    ensures r == LittleEndian(b[i..i + 4])
  {
    var f := b[i..i + 4];
    assert f[..4] == f;
    BytesToUint32(f).OrZero(0)
  }

  /** The 2 little-endian bytes at `b[i..i + 2]`, as `util.BytesToUint16` reads them. */
  function Field16(b: Bytes, i: nat): (r: u16)
    requires i + 2 <= |b|
    ensures r == LittleEndian(b[i..i + 2])
  {
    var f := b[i..i + 2];
    assert f[..2] == f;
    BytesToUint16(f).OrZero(0)
  }
}

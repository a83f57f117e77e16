// The free-run record of the text allocator (data/text_id.go): a run of `rows` rows of the text
// file starting at row `value`, stored as 12 bytes.

module TextIds {
  import opened Conversion

  const TextIdDataSize: nat := 12

  datatype TextId = TextId(value: u64, rows: u32)

  /** `newTextId`: both fields as given. */
  function NewTextId(value: u64, rows: u32): (r: TextId)
    ensures r.value == value && r.rows == rows
  {
    TextId(value, rows)
  }

  /** `data`: `value` as 8 little-endian bytes, then `rows` as 4. */
  function Data(t: TextId): (r: Bytes)
    ensures |r| == TextIdDataSize
    ensures LittleEndian(r[..8]) == t.value && LittleEndian(r[8..]) == t.rows
  {
    var r := Uint64ToBytes(t.value) + Uint32ToBytes(t.rows);
    assert r[..8] == Uint64ToBytes(t.value) && r[8..] == Uint32ToBytes(t.rows);
    r
  }

  /** `constructTextId`: the caller must pass exactly 12 bytes. The decoding errors cannot
      happen on slices of the right length, and the Go code discards them anyway, so the
      result carries no error. */
  function ConstructTextId(b: Bytes): (r: TextId)
    requires |b| == TextIdDataSize
    ensures r.value == LittleEndian(b[..8]) && r.rows == LittleEndian(b[8..12])
  {
    var value, rows := b[0..8], b[8..12];
    assert value[..8] == b[..8] && rows[..4] == rows;
    TextId(BytesToUint64(value).OrZero(0), BytesToUint32(rows).OrZero(0))
  }

  lemma {:induction false} ConstructData(t: TextId)
    ensures ConstructTextId(Data(t)) == t
  {
    var d := Data(t);
    assert d[8..12] == d[8..];
  }

  lemma {:induction false} DataConstruct(b: Bytes)
    requires |b| == TextIdDataSize
    ensures Data(ConstructTextId(b)) == b
  {
    var t := ConstructTextId(b);
    LittleEndianInjective(Uint64ToBytes(t.value), b[..8]);
    LittleEndianInjective(Uint32ToBytes(t.rows), b[8..12]);
    assert b[..8] + b[8..12] == b;
  }

  /** The all-zero record, what a gap in the file reads back as. */
  lemma {:induction false} ZeroRecord()
    ensures ConstructTextId(seq(12, _ => 0)) == TextId(0, 0)
    ensures Data(TextId(0, 0)) == seq(12, _ => 0)
  {
    var z: Bytes := seq(12, _ => 0);
    assert LittleEndian(z[..8]) == 0 by { LittleEndianZeros(z[..8]); }
    assert LittleEndian(z[8..12]) == 0 by { LittleEndianZeros(z[8..12]); }
    DataConstruct(z);
  }

  lemma {:induction false} LittleEndianZeros(s: Bytes)
    requires forall i :: 0 <= i < |s| ==> s[i] == 0
    ensures LittleEndian(s) == 0
  {
    if |s| > 0 {
      LittleEndianZeros(s[1..]);
    }
  }
}

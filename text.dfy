// A stored string (data/text.go): the id of its first row, the length it had when last stored,
// and its bytes. Strings are byte sequences here, as in Go.

module Texts {
  import opened Conversion

  /** The stored form of a string: its length as 4 little-endian bytes, then its bytes. */
  function TextData(value: Bytes): (r: Bytes)
    ensures |r| == 4 + |value|
    ensures LittleEndian(r[..4]) == |value| % TWO32 && r[4..] == value
  {
    var n := Uint32ToBytes(|value| % TWO32);
    assert (n + value)[..4] == n && (n + value)[4..] == value;
    n + value
  }

  /** Reading back a stored string: the length prefix, then that many bytes. */
  lemma {:induction false} TextDataDecodes(value: Bytes)
    requires |value| < TWO32
    ensures var d := TextData(value);
      BytesToUint32(d[..4]) == Ok(|value|) && d[4..4 + |value|] == value
  {
    var d := TextData(value);
    assert d[..4][..4] == d[..4];
  }

  class Text {
    var Id: u64
    var length: u32
    var value: Bytes

    /** `newText`: a string that has not been stored yet (id 0, length 0). */
    constructor NewText(value: Bytes)
      ensures Id == 0 && length == 0 && this.value == value
    {
      Id := 0;
      length := 0;
      this.value := value;
    }

    /** `constructText`: a string read back from the store. */
    constructor ConstructText(id: u64, length: u32, bytes: Bytes)
      ensures Id == id && this.length == length && value == bytes
    {
      Id := id;
      this.length := length;
      value := bytes;
    }

    function Value(): (r: Bytes)
      reads this
      ensures r == value
    {
      value
    }

    /** `Len`: the byte length of the value, as a uint32. */
    function Len(): (r: u32)
      reads this
      ensures |value| < TWO32 ==> r == |value|
    {
      |value| % TWO32
    }

    /** `data`: the stored form of the value. */
    function Data(): (r: Bytes)
      reads this
      ensures |r| == 4 + |value| && LittleEndian(r[..4]) == Len() && r[4..] == value
    {
      TextData(value)
    }
  }
}

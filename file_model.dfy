// The part of an os.File the stores use, as a byte sequence: positional writes that grow the
// file (filling any gap with zero bytes) and positional reads that report a short read.

module FileModel {
  import opened Conversion

  function Zeros(n: nat): (r: Bytes)
    ensures |r| == n
    ensures forall i :: 0 <= i < n ==> r[i] == 0
  {
    seq(n, _ => 0)
  }

  lemma {:induction false} ZerosAppend(a: nat, b: nat)
    ensures Zeros(a) + Zeros(b) == Zeros(a + b)
  {
  }

  function Max(a: int, b: int): int { if a < b then b else a }

  /** `file.WriteAt(data, off)`: overwrite the bytes at [off, off + |data|), extend the file
      when the write runs past its end, and fill a gap before `off` with zeros. Writing
      nothing leaves the file as it is. */
  function WriteAt(file: Bytes, data: Bytes, off: nat): (r: Bytes)
    ensures |data| == 0 ==> r == file
    ensures |data| > 0 ==> |r| == Max(|file|, off + |data|)
    ensures forall i :: off <= i < off + |data| ==> r[i] == data[i - off]
    ensures forall i :: 0 <= i < off && i < |file| ==> r[i] == file[i]
    ensures forall i :: off + |data| <= i < |file| ==> r[i] == file[i]
    ensures forall i :: |file| <= i < off && |data| > 0 ==> r[i] == 0
  {
    if |data| == 0 then file
    else if off <= |file| then
      file[..off] + data + (if off + |data| <= |file| then file[off + |data|..] else [])
    else
      file + Zeros(off - |file|) + data
  }

  /** Writing right at the end of the file appends. */
  lemma {:induction false} WriteAtEnd(file: Bytes, data: Bytes)
    ensures WriteAt(file, data, |file|) == file + data
  {
    assert file[..|file|] == file;
  }

  /** Writing at or past the end of the file appends, after a zero-filled gap. */
  lemma {:induction false} WriteAtPastEnd(file: Bytes, data: Bytes, off: nat)
    requires |file| <= off && |data| > 0
    ensures WriteAt(file, data, off) == file + Zeros(off - |file|) + data
  {
    if off == |file| {
      assert file[..off] == file;
      assert Zeros(0) == [];
    }
  }

  /** Two writes at adjacent offsets are one write of the concatenation. */
  lemma {:induction false} WriteAtAdjacent(file: Bytes, a: Bytes, b: Bytes, off: nat)
    ensures WriteAt(WriteAt(file, a, off), b, off + |a|) == WriteAt(file, a + b, off)
  {
    var l := WriteAt(WriteAt(file, a, off), b, off + |a|);
    var r := WriteAt(file, a + b, off);
    assert |l| == |r|;
    forall i | 0 <= i < |l| ensures l[i] == r[i] {
      if off <= i < off + |a| {
        assert l[i] == WriteAt(file, a, off)[i] == a[i - off];
        assert r[i] == (a + b)[i - off];
      } else if off + |a| <= i < off + |a| + |b| {
        assert l[i] == b[i - off - |a|];
        assert r[i] == (a + b)[i - off];
      }
    }
  }

  /** What `file.ReadAt(buf, off)` leaves in a zeroed buffer of n bytes, and whether it
      reported an error (io.EOF): the error is reported exactly when fewer than n bytes lie
      at and after `off`; an empty read never fails. */
  datatype Read = Read(data: Bytes, count: nat, eof: bool)

  function ReadAt(file: Bytes, off: nat, n: nat): (r: Read)
    ensures |r.data| == n && r.count <= n
    ensures r.eof <==> n > 0 && off + n > |file|
    ensures !r.eof ==> r.count == n
    ensures !r.eof && n > 0 ==> r.data == file[off..off + n]
    ensures forall i :: 0 <= i < n && off + i < |file| ==> r.data[i] == file[off + i]
    ensures forall i :: 0 <= i < n && |file| <= off + i ==> r.data[i] == 0
  {
    if n == 0 then Read([], 0, false)
    else if off + n <= |file| then Read(file[off..off + n], n, false)
    else if off >= |file| then Read(Zeros(n), 0, true)
    else Read(file[off..] + Zeros(off + n - |file|), |file| - off, true)
  }

  /** A write followed by a read of the same span returns what was written. */
  lemma {:induction false} ReadAfterWrite(file: Bytes, data: Bytes, off: nat)
    ensures ReadAt(WriteAt(file, data, off), off, |data|) == Read(data, |data|, false)
  {
  }
}

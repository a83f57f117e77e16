// Edges (data/edge.go): the 22-byte record of a directed edge. Each edge sits on two intrusive
// singly linked chains at once, both ended by id 0: the outbound chain of its origin vertex
// (`outNext`) and the inbound chain of its destination (`inNext`). `firstAtt` heads its own
// attribute chain.

module Edges {
  import opened Conversion
  import Labels

  const EdgeDataSize: nat := 22

  datatype Edge = Edge(Id: u32, labelId: u16, from: u32, to: u32, outNext: u32, inNext: u32, firstAtt: u32)

  /** Which of its two chains an edge is looked at on: the outbound chain of its origin
      (linked by `outNext`) or the inbound chain of its destination (linked by `inNext`). */
  datatype Direction = Outbound | Inbound {
    function Other(): Direction {
      if Outbound? then Inbound else Outbound
    }
  }

  /** The id of the next edge on the chain of this direction. */
  function NextOf(e: Edge, dir: Direction): u32 {
    if dir.Outbound? then e.outNext else e.inNext
  }

  /** The edge with its link on the chain of this direction set to `next`, as the assignments
      `edge.outNext = ...` and `edge.inNext = ...` leave it. */
  function Relinked(e: Edge, dir: Direction, next: u32): (r: Edge)
    ensures NextOf(r, dir) == next
    ensures NextOf(r, dir.Other()) == NextOf(e, dir.Other())
    ensures r.Id == e.Id && r.labelId == e.labelId && r.from == e.from && r.to == e.to
    ensures r.firstAtt == e.firstAtt
  {
    if dir.Outbound? then e.(outNext := next) else e.(inNext := next)
  }

  /** `constructEdge`: label 0:2, from 2:6, to 6:10, outNext 10:14, inNext 14:18 and firstAtt
      18:22, all little-endian. There is no length check: fewer than 22 bytes make the slicing
      fault, and bytes after the 22nd are never looked at. The conversion errors it tests for
      cannot happen on slices of these lengths. */
  function ConstructEdge(id: u32, b: Bytes): (r: Edge)
    requires |b| >= EdgeDataSize
    ensures r.Id == id && r.labelId == LittleEndian(b[0..2])
    ensures r.from == LittleEndian(b[2..6]) && r.to == LittleEndian(b[6..10])
    ensures r.outNext == LittleEndian(b[10..14]) && r.inNext == LittleEndian(b[14..18])
    ensures r.firstAtt == LittleEndian(b[18..22])
  {
    Edge(id, Field16(b, 0), Field32(b, 2), Field32(b, 6), Field32(b, 10), Field32(b, 14), Field32(b, 18))
  }

  /** The record layout `constructEdge` decodes. The Go code writes no edge records; this is
      the encoding that layout fixes, used to state what decoding recovers. */
  function EdgeLayout(e: Edge): (r: Bytes)
    ensures |r| == EdgeDataSize
  {
    Uint16ToBytes(e.labelId) + Uint32ToBytes(e.from) + Uint32ToBytes(e.to)
      + Uint32ToBytes(e.outNext) + Uint32ToBytes(e.inNext) + Uint32ToBytes(e.firstAtt)
  }

  /** Decoding the layout of an edge gives the edge back. */
  lemma {:induction false} ConstructLayout(e: Edge)
    ensures ConstructEdge(e.Id, EdgeLayout(e)) == e
  {
    var b := EdgeLayout(e);
    assert b[0..2] == Uint16ToBytes(e.labelId);
    assert b[2..6] == Uint32ToBytes(e.from);
    assert b[6..10] == Uint32ToBytes(e.to);
    assert b[10..14] == Uint32ToBytes(e.outNext);
    assert b[14..18] == Uint32ToBytes(e.inNext);
    assert b[18..22] == Uint32ToBytes(e.firstAtt);
  }

  /** Every 22-byte record is the layout of the edge it decodes to. */
  lemma {:induction false} LayoutConstruct(id: u32, b: Bytes)
    requires |b| == EdgeDataSize
    ensures EdgeLayout(ConstructEdge(id, b)) == b
  {
    EncodeOfLittleEndian(b[0..2]);
    EncodeOfLittleEndian(b[2..6]);
    EncodeOfLittleEndian(b[6..10]);
    EncodeOfLittleEndian(b[10..14]);
    EncodeOfLittleEndian(b[14..18]);
    EncodeOfLittleEndian(b[18..22]);
    assert b == b[0..2] + b[2..6] + b[6..10] + b[10..14] + b[14..18] + b[18..22];
  }

  /** Bytes after the 22nd do not change the decoded edge. */
  lemma {:induction false} TrailingIgnored(id: u32, b: Bytes, extra: Bytes)
    requires |b| >= EdgeDataSize
    ensures ConstructEdge(id, b + extra) == ConstructEdge(id, b)
  {
    var c := b + extra;
    assert c[0..2] == b[0..2] && c[2..6] == b[2..6] && c[6..10] == b[6..10];
    assert c[10..14] == b[10..14] && c[14..18] == b[14..18] && c[18..22] == b[18..22];
  }

  /** `Key`: the string of the edge's label. The Go code ignores the error of `find` and then
      calls `Value` on the nil label, so a label that cannot be found makes it fault. */
  function Key(e: Edge, names: Labels.Names): (r: Bytes)
    requires names(e.labelId).Some?
    ensures Some(r) == names(e.labelId)
  {
    names(e.labelId).value
  }
}

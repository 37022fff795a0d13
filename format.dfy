/**
 * The bytes the Typecraft Binary Format writer produces, section by
 * section, as functions of the document's contents (tbf/core/parsing.py).
 *
 * A document is written as four sections in a row: the header, the
 * layers, the relations and the attributes.  Every section is framed by a
 * start and an end flag; numbers are 4-byte big-endian; strings are
 * encoded with the document's codec and closed by a 0x00 separator.
 *
 * `str.encode(self.encoding)` looks a codec up by name; the model takes
 * the codec as a function parameter (`Codec`).  The header itself is
 * always written as UTF-8.
 */
module Format {
  import opened Assoc
  import opened Bytes
  import opened Models
  import opened Tables

  /***** Flags (tbf/core/constants.py is not part of this model) *****/

  const SEPARATOR: byte := 0x00
  const HEADER_START: byte := 0x01
  const HEADER_END: byte := 0x02
  const LAYERS_START: byte := 0x03
  const LAYERS_END: byte := 0x04
  const ATTRS_START: byte := 0x05
  const ATTRS_END: byte := 0x06
  const RELATIONS_START: byte := 0x07
  const RELATIONS_END: byte := 0x08
  const LAYER_START: byte := 0x09
  const LAYER_END: byte := 0x0A
  const CHUNK_FULL_START: byte := 0x0B
  const CHUNK_LINKED_START: byte := 0x0C
  const CHUNK_END: byte := 0x0D
  const RELATION_START: byte := 0x0E
  const RELATION_END: byte := 0x0F

  /*
   * Small facts about sequences.  The proofs state them by name after each
   * step, which keeps every step's proof obligation small.
   */

  lemma Regroup<T>(a: seq<T>, b: seq<T>, c: seq<T>)
    ensures a + b + c == a + (b + c)
  {
  }

  lemma TakeAll<T>(s: seq<T>)
    ensures s[..|s|] == s
  {
  }

  lemma TakeNext<T>(s: seq<T>, i: int)
    requires 0 <= i < |s|
    ensures s[..i + 1] == s[..i] + [s[i]]
    ensures s[..i + 1][..i] == s[..i]
  {
  }

  /** `str.encode(encoding)` for the document's encoding. */
  type Codec = string -> seq<byte>

  /***** Header *****/

  /** `_write_header`: start flag, the encoding name in UTF-8, separator, end flag. */
  function HeaderSection(encoding: string): seq<byte>
  {
    [HEADER_START] + Utf8(encoding) + [SEPARATOR, HEADER_END]
  }

  /**
   * The encoding name sits between the start flag and the first 0x00 after
   * it, so a reader finds where it ends from the bytes alone.
   */
  lemma HeaderSectionLayout(encoding: string)
    requires '\0' !in encoding
    ensures |HeaderSection(encoding)| == |Utf8(encoding)| + 3
    ensures HeaderSection(encoding)[0] == HEADER_START
    ensures HeaderSection(encoding)[1..|Utf8(encoding)| + 1] == Utf8(encoding)
    ensures forall k :: 1 <= k <= |Utf8(encoding)| ==> HeaderSection(encoding)[k] != SEPARATOR
    ensures HeaderSection(encoding)[|Utf8(encoding)| + 1] == SEPARATOR
    ensures HeaderSection(encoding)[|Utf8(encoding)| + 2] == HEADER_END
  {
    Utf8NoZero(encoding);
    var u := Utf8(encoding);
    var h := HeaderSection(encoding);
    assert h == [HEADER_START] + u + [SEPARATOR, HEADER_END];
    forall k | 1 <= k <= |u|
      ensures h[k] != SEPARATOR
    {
      assert h[k] == u[k - 1];
    }
  }

  /***** Layers *****/

  /** `_write_layer`: start flag, name, separator, number of objects, end flag. */
  function LayerBlock(l: LayerValue, codec: Codec): seq<byte>
    requires IsU32(|l.objects|)
  {
    [LAYER_START] + codec(l.name) + [SEPARATOR] + IntToBytes(|l.objects|) + [LAYER_END]
  }

  predicate ObjectCountsFit(ls: seq<LayerValue>)
  {
    forall i :: 0 <= i < |ls| ==> IsU32(|ls[i].objects|)
  }

  /** Every number `_write_layers` writes fits in four bytes. */
  predicate LayersFit(ls: seq<LayerValue>)
  {
    IsU32(|ls|) && ObjectCountsFit(ls)
  }

  function LayerBlocks(ls: seq<LayerValue>, codec: Codec): seq<byte>
    requires ObjectCountsFit(ls)
  {
    if ls == [] then [] else LayerBlock(ls[0], codec) + LayerBlocks(ls[1..], codec)
  }

  lemma {:induction false} LayerBlocksAppend(ls: seq<LayerValue>, l: LayerValue, codec: Codec)
    requires ObjectCountsFit(ls) && IsU32(|l.objects|)
    ensures LayerBlocks(ls + [l], codec) == LayerBlocks(ls, codec) + LayerBlock(l, codec)
  {
    if ls == [] {
      assert [l][1..] == [];
    } else {
      assert (ls + [l])[1..] == ls[1..] + [l];
      LayerBlocksAppend(ls[1..], l, codec);
    }
  }

  /** `_write_layers`: start flag, number of layers, each layer's block, end flag. */
  function LayersSection(ls: seq<LayerValue>, codec: Codec): seq<byte>
    requires LayersFit(ls)
  {
    [LAYERS_START] + IntToBytes(|ls|) + LayerBlocks(ls, codec) + [LAYERS_END]
  }

  /** The bytes of the layer blocks: 7 bytes of flags, separator and count, plus the encoded name, per layer. */
  function LayerBytes(ls: seq<LayerValue>, codec: Codec): nat
  {
    if ls == [] then 0 else |codec(ls[0].name)| + 7 + LayerBytes(ls[1..], codec)
  }

  lemma {:induction false} LayerBlocksLength(ls: seq<LayerValue>, codec: Codec)
    requires ObjectCountsFit(ls)
    ensures |LayerBlocks(ls, codec)| == LayerBytes(ls, codec)
  {
    if ls != [] {
      assert ObjectCountsFit(ls[1..]) by {
        forall k | 0 <= k < |ls[1..]| ensures IsU32(|ls[1..][k].objects|) {
          assert ls[1..][k] == ls[k + 1];
        }
      }
      LayerBlocksLength(ls[1..], codec);
    }
  }

  /**
   * The layers section is 6 bytes of framing and count plus 7 bytes and the
   * encoded name per layer, and its count field reads back as the number of
   * layers.
   */
  lemma LayersSectionLayout(ls: seq<LayerValue>, codec: Codec)
    requires LayersFit(ls)
    ensures |LayersSection(ls, codec)| == 6 + LayerBytes(ls, codec)
    ensures LayersSection(ls, codec)[0] == LAYERS_START
    ensures BigEndian(LayersSection(ls, codec)[1..5]) == |ls|
  {
    LayerBlocksLength(ls, codec);
    var s := LayersSection(ls, codec);
    assert s[1..5] == IntToBytes(|ls|);
  }

  /***** Relations *****/

  /** One relation group: (parent layer id, child layer id, pairs). */
  type Group = (int, int, Pairs)

  predicate GroupFits(g: Group)
  {
    IsU32(g.0) && IsU32(g.1) && IsU32(|g.2|) && PairsFit(g.2)
  }

  predicate AllGroupsFit(gs: seq<Group>)
  {
    forall k :: 0 <= k < |gs| ==> GroupFits(gs[k])
  }

  /** The groups of one parent layer fit when its entry of the table does. */
  lemma GroupRowFits(parentLayer: int, childRels: Dict<int, Pairs>)
    requires IsU32(parentLayer) && GroupsFit(childRels)
    ensures AllGroupsFit(Row(parentLayer, childRels))
  {
  }

  /** The groups `_write_relations` visits fit when the table does. */
  lemma FlattenedGroupsFit(t: RelationTable)
    requires GroupTableFits(t)
    ensures AllGroupsFit(Flatten(t))
  {
    forall k | 0 <= k < |Flatten(t)|
      ensures GroupFits(Flatten(t)[k])
    {
      FlattenMember(t, k);
    }
  }

  /** The pairs of a group: parent id, then child id, for each pair. */
  function PairsBytes(ps: Pairs): seq<byte>
    requires PairsFit(ps)
  {
    if ps == [] then [] else IntToBytes(ps[0].0) + IntToBytes(ps[0].1) + PairsBytes(ps[1..])
  }

  lemma {:induction false} PairsBytesAppend(ps: Pairs, p: (int, int))
    requires PairsFit(ps) && IsU32(p.0) && IsU32(p.1)
    ensures PairsBytes(ps + [p]) == PairsBytes(ps) + IntToBytes(p.0) + IntToBytes(p.1)
  {
    if ps == [] {
      assert [p][1..] == [];
    } else {
      assert (ps + [p])[1..] == ps[1..] + [p];
      PairsBytesAppend(ps[1..], p);
    }
  }

  /** One group: start flag, the two layer ids, the number of pairs, the pairs, end flag. */
  function RelationBlock(g: Group): seq<byte>
    requires GroupFits(g)
  {
    [RELATION_START] + IntToBytes(g.0) + IntToBytes(g.1) + IntToBytes(|g.2|) + PairsBytes(g.2) + [RELATION_END]
  }

  function RelationBlocks(gs: seq<Group>): seq<byte>
    requires AllGroupsFit(gs)
  {
    if gs == [] then [] else RelationBlock(gs[0]) + RelationBlocks(gs[1..])
  }

  lemma PairsFitTail(ps: Pairs)
    requires PairsFit(ps) && ps != []
    ensures PairsFit(ps[1..])
  {
    forall k | 0 <= k < |ps[1..]| ensures IsU32(ps[1..][k].0) && IsU32(ps[1..][k].1) {
      assert ps[1..][k] == ps[k + 1];
    }
  }

  lemma {:induction false} PairsBytesLength(ps: Pairs)
    requires PairsFit(ps)
    ensures |PairsBytes(ps)| == 8 * |ps|
  {
    if ps != [] {
      PairsFitTail(ps);
      PairsBytesLength(ps[1..]);
    }
  }

  /** Pair i occupies bytes 8i to 8i+8: its parent id, then its child id. */
  lemma {:induction false} PairsBytesAt(ps: Pairs, i: int)
    requires PairsFit(ps) && 0 <= i < |ps|
    ensures |PairsBytes(ps)| == 8 * |ps|
    ensures BigEndian(PairsBytes(ps)[8 * i..8 * i + 4]) == ps[i].0
    ensures BigEndian(PairsBytes(ps)[8 * i + 4..8 * i + 8]) == ps[i].1
  {
    PairsBytesLength(ps);
    PairsFitTail(ps);
    var b := PairsBytes(ps);
    var head := IntToBytes(ps[0].0) + IntToBytes(ps[0].1);
    assert b == head + PairsBytes(ps[1..]);
    if i == 0 {
      assert b[0..4] == IntToBytes(ps[0].0);
      assert b[4..8] == IntToBytes(ps[0].1);
    } else {
      PairsBytesAt(ps[1..], i - 1);
      assert b[8 * i..8 * i + 4] == PairsBytes(ps[1..])[8 * (i - 1)..8 * (i - 1) + 4];
      assert b[8 * i + 4..8 * i + 8] == PairsBytes(ps[1..])[8 * (i - 1) + 4..8 * (i - 1) + 8];
    }
  }

  /**
   * A relation block is 14 bytes of framing, ids and count plus 8 bytes per
   * pair, and its count field reads back as the number of pairs that follow.
   */
  lemma RelationBlockLayout(g: Group)
    requires GroupFits(g)
    ensures |RelationBlock(g)| == 14 + 8 * |g.2|
    ensures BigEndian(RelationBlock(g)[1..5]) == g.0 && BigEndian(RelationBlock(g)[5..9]) == g.1
    ensures BigEndian(RelationBlock(g)[9..13]) == |g.2|
  {
    PairsBytesLength(g.2);
    var b := RelationBlock(g);
    assert b[1..5] == IntToBytes(g.0);
    assert b[5..9] == IntToBytes(g.1);
    assert b[9..13] == IntToBytes(|g.2|);
  }

  /** The bytes of the relation blocks: 14 bytes of flags, ids and count plus 8 per pair, for each group. */
  function GroupBytes(gs: seq<Group>): nat
  {
    if gs == [] then 0 else 14 + 8 * |gs[0].2| + GroupBytes(gs[1..])
  }

  lemma {:induction false} RelationBlocksLength(gs: seq<Group>)
    requires AllGroupsFit(gs)
    ensures |RelationBlocks(gs)| == GroupBytes(gs)
  {
    if gs != [] {
      assert AllGroupsFit(gs[1..]) by {
        forall k | 0 <= k < |gs[1..]| ensures GroupFits(gs[1..][k]) {
          assert gs[1..][k] == gs[k + 1];
        }
      }
      RelationBlockLayout(gs[0]);
      RelationBlocksLength(gs[1..]);
    }
  }

  lemma {:induction false} RelationBlocksAppend(gs: seq<Group>, g: Group)
    requires AllGroupsFit(gs) && GroupFits(g)
    ensures RelationBlocks(gs + [g]) == RelationBlocks(gs) + RelationBlock(g)
  {
    if gs == [] {
      assert [g][1..] == [];
    } else {
      assert (gs + [g])[1..] == gs[1..] + [g];
      RelationBlocksAppend(gs[1..], g);
    }
  }

  lemma AllGroupsFitConcat(a: seq<Group>, b: seq<Group>)
    requires AllGroupsFit(a) && AllGroupsFit(b)
    ensures AllGroupsFit(a + b)
  {
    forall k | 0 <= k < |a + b|
      ensures GroupFits((a + b)[k])
    {
      if k < |a| {
        assert (a + b)[k] == a[k];
      } else {
        assert (a + b)[k] == b[k - |a|];
      }
    }
  }

  lemma {:induction false} RelationBlocksConcat(a: seq<Group>, b: seq<Group>)
    requires AllGroupsFit(a) && AllGroupsFit(b)
    ensures AllGroupsFit(a + b)
    ensures RelationBlocks(a + b) == RelationBlocks(a) + RelationBlocks(b)
  {
    AllGroupsFitConcat(a, b);
    if a == [] {
      assert a + b == b;
    } else {
      var c := a + b;
      assert c[0] == a[0];
      assert c[1..] == a[1..] + b;
      assert AllGroupsFit(a[1..]) by {
        forall k | 0 <= k < |a[1..]| ensures GroupFits(a[1..][k]) {
          assert a[1..][k] == a[k + 1];
        }
      }
      RelationBlocksConcat(a[1..], b);
      assert RelationBlocks(c) == RelationBlock(a[0]) + RelationBlocks(a[1..] + b);
      Regroup(RelationBlock(a[0]), RelationBlocks(a[1..]), RelationBlocks(b));
    }
  }

  /** `_write_relations`: start flag, the group count, every group in table order, end flag. */
  function RelationsSection(t: RelationTable, count: int): seq<byte>
    requires IsU32(count) && GroupTableFits(t)
  {
    FlattenedGroupsFit(t);
    [RELATIONS_START] + IntToBytes(count) + RelationBlocks(Flatten(t)) + [RELATIONS_END]
  }

  /** A section that opens with a flag and a four-byte count shows them in its first five bytes. */
  lemma CountedSection(start: byte, n: int, body: seq<byte>, end: byte)
    requires IsU32(n)
    ensures ([start] + IntToBytes(n) + body + [end])[0] == start
    ensures ([start] + IntToBytes(n) + body + [end])[1..5] == IntToBytes(n)
    ensures BigEndian(([start] + IntToBytes(n) + body + [end])[1..5]) == n
  {
    assert ([start] + IntToBytes(n) + body + [end])[1..5] == IntToBytes(n);
  }

  /**
   * The count `_write_relations` writes is the number of relation blocks
   * that follow it: one per group of the table.
   */
  lemma RelationsSectionCount(t: RelationTable)
    requires RelationsFit(t)
    ensures RelationsSection(t, TotalSize(t))[0] == RELATIONS_START
    ensures BigEndian(RelationsSection(t, TotalSize(t))[1..5]) == |Flatten(t)|
  {
    FlattenSize(t);
    FlattenedGroupsFit(t);
    CountedSection(RELATIONS_START, TotalSize(t), RelationBlocks(Flatten(t)), RELATIONS_END);
  }

  /***** Attributes *****/

  /** One attribute chunk to write: (layer id, attribute name, object id -> value). */
  type ChunkRow = (int, string, AttrValues)

  function ObjIds(objs: seq<ObjectValue>): seq<int>
  {
    seq(|objs|, i requires 0 <= i < |objs| => objs[i].id)
  }

  /** A value is written only when it is present and not empty (`if obj_value:`). */
  function Shown(v: Option<string>, codec: Codec): seq<byte>
  {
    if v.Some? && v.value != "" then codec(v.value) else []
  }

  /** The body of a full chunk: for each object of the layer, its value if shown, then a separator. */
  function FullValues(ids: seq<int>, vals: AttrValues, codec: Codec): seq<byte>
  {
    if ids == [] then []
    else FullValues(ids[..|ids| - 1], vals, codec) + Shown(Get(vals, ids[|ids| - 1]), codec) + [SEPARATOR]
  }

  /** `_write_full_chunk`: positions give the objects, so no ids are written. */
  function FullChunk(lid: int, key: string, vals: AttrValues, ids: seq<int>, codec: Codec): seq<byte>
    requires IsU32(lid)
  {
    [CHUNK_FULL_START] + IntToBytes(lid) + codec(key) + [SEPARATOR] + FullValues(ids, vals, codec) + [CHUNK_END]
  }

  /** The body of a linked chunk: object id, value, separator, for each stored value. */
  function LinkedEntries(vals: AttrValues, codec: Codec): seq<byte>
    requires ValuesFit(vals)
  {
    if vals == [] then []
    else
      var n := |vals| - 1;
      LinkedEntries(vals[..n], codec) + IntToBytes(vals[n].0) + codec(vals[n].1) + [SEPARATOR]
  }

  /** What `_write_linked_chunk` writes before its last statement. */
  function LinkedChunkBody(lid: int, key: string, vals: AttrValues, codec: Codec): seq<byte>
    requires IsU32(lid) && ValuesFit(vals)
  {
    [CHUNK_LINKED_START] + IntToBytes(lid) + codec(key) + [SEPARATOR] + LinkedEntries(vals, codec)
  }

  /** A linked chunk closed by CHUNK_END, as a full chunk is. */
  function LinkedChunk(lid: int, key: string, vals: AttrValues, codec: Codec): seq<byte>
    requires IsU32(lid) && ValuesFit(vals)
  {
    LinkedChunkBody(lid, key, vals, codec) + [CHUNK_END]
  }

  /** `_linked_chunk_overhead`: 4 bytes of id and 1 separator per stored value. */
  function LinkedChunkOverhead(k: int): int
  {
    k * 4 + k * 1
  }

  /** `_full_chunk_overhead`: 1 separator per object of the layer. */
  function FullChunkOverhead(n: int): int
  {
    n * 1
  }

  /** `_write_attrs` writes a linked chunk exactly when its overhead is strictly smaller. */
  predicate ChoosesLinked(k: int, n: int)
  {
    LinkedChunkOverhead(k) < FullChunkOverhead(n)
  }

  /** The rule in one comparison: linked exactly when five bytes per stored value undercut one per object. */
  lemma ChoosesLinkedRule(k: int, n: int)
    ensures ChoosesLinked(k, n) <==> 5 * k < n
  {
  }

  predicate ChunkFits(ls: seq<LayerValue>, c: ChunkRow)
  {
    c.0 in LayerIds(ls) && IsU32(c.0) && ValuesFit(c.2)
  }

  predicate AllChunksFit(ls: seq<LayerValue>, cs: seq<ChunkRow>)
  {
    forall k :: 0 <= k < |cs| ==> ChunkFits(ls, cs[k])
  }

  lemma ChunksFit(ls: seq<LayerValue>, t: AttrTable)
    requires AttrTableFits(t, ls)
    ensures AllChunksFit(ls, Flatten(t))
  {
    forall k | 0 <= k < |Flatten(t)|
      ensures ChunkFits(ls, Flatten(t)[k])
    {
      FlattenMember(t, k);
    }
  }

  /** The layer a chunk belongs to, as `get_layer_by_id` finds it. */
  function ChunkLayer(ls: seq<LayerValue>, c: ChunkRow): seq<ObjectValue>
    requires c.0 in LayerIds(ls)
  {
    LayerWithId(ls, c.0).objects
  }

  predicate IsLinked(ls: seq<LayerValue>, c: ChunkRow)
    requires c.0 in LayerIds(ls)
  {
    ChoosesLinked(|c.2|, |ChunkLayer(ls, c)|)
  }

  /** One chunk, in whichever layout the overhead rule picks. */
  function Chunk(ls: seq<LayerValue>, c: ChunkRow, codec: Codec): seq<byte>
    requires ChunkFits(ls, c)
  {
    if IsLinked(ls, c) then LinkedChunk(c.0, c.1, c.2, codec)
    else FullChunk(c.0, c.1, c.2, ObjIds(ChunkLayer(ls, c)), codec)
  }

  function Chunks(ls: seq<LayerValue>, cs: seq<ChunkRow>, codec: Codec): seq<byte>
    requires AllChunksFit(ls, cs)
  {
    if cs == [] then [] else Chunks(ls, cs[..|cs| - 1], codec) + Chunk(ls, cs[|cs| - 1], codec)
  }

  lemma FitsAppend(ls: seq<LayerValue>, a: seq<ChunkRow>, b: seq<ChunkRow>)
    requires AllChunksFit(ls, a) && AllChunksFit(ls, b)
    ensures AllChunksFit(ls, a + b)
  {
    forall k | 0 <= k < |a + b|
      ensures ChunkFits(ls, (a + b)[k])
    {
      if k < |a| {
        assert (a + b)[k] == a[k];
      } else {
        assert (a + b)[k] == b[k - |a|];
      }
    }
  }

  /** The chunks of two runs of rows follow one another. */
  lemma {:induction false} ChunksAppend(ls: seq<LayerValue>, a: seq<ChunkRow>, b: seq<ChunkRow>, codec: Codec)
    requires AllChunksFit(ls, a) && AllChunksFit(ls, b)
    ensures AllChunksFit(ls, a + b)
    ensures Chunks(ls, a + b, codec) == Chunks(ls, a, codec) + Chunks(ls, b, codec)
  {
    FitsAppend(ls, a, b);
    if b == [] {
      assert a + b == a;
    } else {
      var n := |b| - 1;
      assert AllChunksFit(ls, b[..n]);
      assert (a + b)[..|a + b| - 1] == a + b[..n];
      assert (a + b)[|a + b| - 1] == b[n];
      ChunksAppend(ls, a, b[..n], codec);
      Regroup(Chunks(ls, a, codec), Chunks(ls, b[..n], codec), Chunk(ls, b[n], codec));
    }
  }

  /** Every chunk of one row of a table that fits fits. */
  lemma RowFits(ls: seq<LayerValue>, t: AttrTable, i: int)
    requires AttrTableFits(t, ls) && 0 <= i < |t|
    ensures AllChunksFit(ls, Row(t[i].0, t[i].1))
  {
  }

  /** The encoded values of an attribute, in table order. */
  function ValueBytes(vals: AttrValues, codec: Codec): nat
  {
    if vals == [] then 0 else ValueBytes(vals[..|vals| - 1], codec) + |codec(vals[|vals| - 1].1)|
  }

  /** The encoded values a full chunk shows, in layer order. */
  function ShownBytes(ids: seq<int>, vals: AttrValues, codec: Codec): nat
  {
    if ids == [] then 0 else ShownBytes(ids[..|ids| - 1], vals, codec) + |Shown(Get(vals, ids[|ids| - 1]), codec)|
  }

  lemma {:induction false} LinkedEntriesLength(vals: AttrValues, codec: Codec)
    requires ValuesFit(vals)
    ensures |LinkedEntries(vals, codec)| == LinkedChunkOverhead(|vals|) + ValueBytes(vals, codec)
  {
    if vals != [] {
      LinkedEntriesLength(vals[..|vals| - 1], codec);
    }
  }

  lemma {:induction false} FullValuesLength(ids: seq<int>, vals: AttrValues, codec: Codec)
    ensures |FullValues(ids, vals, codec)| == FullChunkOverhead(|ids|) + ShownBytes(ids, vals, codec)
  {
    if ids != [] {
      FullValuesLength(ids[..|ids| - 1], vals, codec);
    }
  }

  predicate DistinctIds(ids: seq<int>)
  {
    forall i, j :: 0 <= i < j < |ids| ==> ids[i] != ids[j]
  }

  lemma {:induction false} ShownBytesNone(ids: seq<int>, codec: Codec)
    ensures ShownBytes(ids, [], codec) == 0
  {
    if ids != [] {
      ShownBytesNone(ids[..|ids| - 1], codec);
    }
  }

  /** Storing one more value, under a key that was absent, shows it once when the key is a listed id. */
  lemma {:induction false} ShownBytesAdd(ids: seq<int>, before: AttrValues, after: AttrValues, k: int, v: string, codec: Codec)
    requires DistinctIds(ids) && codec("") == []
    requires Get(before, k) == None
    requires forall id :: Get(after, id) == if id == k then Some(v) else Get(before, id)
    ensures ShownBytes(ids, after, codec) == ShownBytes(ids, before, codec) + if k in ids then |codec(v)| else 0
  {
    if ids != [] {
      var n := |ids| - 1;
      assert DistinctIds(ids[..n]);
      ShownBytesAdd(ids[..n], before, after, k, v, codec);
      assert ids == ids[..n] + [ids[n]];
      assert k in ids <==> k in ids[..n] || ids[n] == k;
      if ids[n] == k {
        assert k !in ids[..n];
      }
    }
  }

  /**
   * When every stored value belongs to one of the layer's (distinct)
   * objects, a full chunk shows exactly the stored values.
   */
  lemma {:induction false} ShownBytesAll(ids: seq<int>, vals: AttrValues, codec: Codec)
    requires DistinctIds(ids) && codec("") == [] && DistinctKeys(vals)
    requires forall j :: 0 <= j < |vals| ==> vals[j].0 in ids
    ensures ShownBytes(ids, vals, codec) == ValueBytes(vals, codec)
  {
    if vals == [] {
      ShownBytesNone(ids, codec);
    } else {
      var n := |vals| - 1;
      var init := vals[..n];
      var k, v := vals[n].0, vals[n].1;
      assert !HasKey(init, k);
      assert vals == init + [(k, v)];
      assert Put(init, k, v) == vals;
      ShownBytesAll(ids, init, codec);
      ShownBytesAdd(ids, init, vals, k, v, codec);
    }
  }

  /**
   * The rule `_write_attrs` applies compares the two layouts' real sizes:
   * when every stored value belongs to one of the layer's objects (ids
   * distinct) and the codec writes nothing for an empty string, a linked
   * chunk is longer than a full one by exactly the difference of the two
   * overheads, so the writer picks the linked layout exactly when it is
   * the shorter one, and the chunk it writes is never the longer layout.
   */
  lemma ChunkChoiceShorter(ls: seq<LayerValue>, c: ChunkRow, codec: Codec)
    requires ChunkFits(ls, c) && codec("") == []
    requires DistinctKeys(c.2) && DistinctIds(ObjIds(ChunkLayer(ls, c)))
    requires forall j :: 0 <= j < |c.2| ==> c.2[j].0 in ObjIds(ChunkLayer(ls, c))
    ensures |LinkedChunk(c.0, c.1, c.2, codec)| - |FullChunk(c.0, c.1, c.2, ObjIds(ChunkLayer(ls, c)), codec)|
            == LinkedChunkOverhead(|c.2|) - FullChunkOverhead(|ChunkLayer(ls, c)|)
    ensures IsLinked(ls, c) <==> |LinkedChunk(c.0, c.1, c.2, codec)| < |FullChunk(c.0, c.1, c.2, ObjIds(ChunkLayer(ls, c)), codec)|
    ensures |Chunk(ls, c, codec)| <= |LinkedChunk(c.0, c.1, c.2, codec)|
    ensures |Chunk(ls, c, codec)| <= |FullChunk(c.0, c.1, c.2, ObjIds(ChunkLayer(ls, c)), codec)|
  {
    var ids := ObjIds(ChunkLayer(ls, c));
    LinkedEntriesLength(c.2, codec);
    FullValuesLength(ids, c.2, codec);
    ShownBytesAll(ids, c.2, codec);
  }

  /** Entry `i` of the table `write` builds is the table of the layer `get_layer_by_id` finds for its key. */
  lemma StoredLayer(ls: seq<LayerValue>, i: int)
    requires 0 <= i < |AttrsOf(ls)|
    ensures AttrsOf(ls)[i].0 in LayerIds(ls)
    ensures AttrsOf(ls)[i].1 == LayerAttrTable(LayerWithId(ls, AttrsOf(ls)[i].0).objects)
  {
    var t := AttrsOf(ls);
    AttrTableSpec(ls);
    assert HasKey(t, t[i].0);
    assert Get(t, t[i].0) == Some(t[i].1);
  }

  /** The values stored for name `j` of a layer's table are keyed by distinct ids of the layer's objects. */
  lemma StoredValues(objs: seq<ObjectValue>, j: int)
    requires 0 <= j < |LayerAttrTable(objs)|
    ensures DistinctKeys(LayerAttrTable(objs)[j].1)
    ensures forall k :: 0 <= k < |LayerAttrTable(objs)[j].1| ==> LayerAttrTable(objs)[j].1[k].0 in ObjIds(objs)
  {
    var inner := LayerAttrTable(objs);
    var es := AttrEntries(objs);
    AddAttrsSpec(es);
    var key := inner[j].0;
    assert Get(inner, key) == Some(inner[j].1);
    var vals := inner[j].1;
    forall k | 0 <= k < |vals|
      ensures vals[k].0 in ObjIds(objs)
    {
      var oid := vals[k].0;
      assert HasKey(vals, oid);
      assert ValueOf(inner, key, oid).Some?;
      LastValueFrom(es, key, oid);
      AttrEntriesFrom(objs, AttrEntry(oid, key, LastValue(es, key, oid).value));
      var q :| 0 <= q < |objs| && objs[q].id == oid && HasKey(objs[q].attrs, key);
      assert ObjIds(objs)[q] == oid;
    }
  }

  /**
   * Every chunk of the table `write` builds meets the conditions above when
   * each layer's object ids are distinct, so each chunk written is the
   * shorter of the two layouts.
   */
  lemma WrittenChunksShorter(ls: seq<LayerValue>, m: int, codec: Codec)
    requires IdsFit(ls) && codec("") == []
    requires forall i :: 0 <= i < |ls| ==> DistinctIds(ObjIds(ls[i].objects))
    requires 0 <= m < |Flatten(AttrsOf(ls))|
    ensures ChunkFits(ls, Flatten(AttrsOf(ls))[m])
    ensures var c := Flatten(AttrsOf(ls))[m];
      (IsLinked(ls, c) <==> |LinkedChunk(c.0, c.1, c.2, codec)| < |FullChunk(c.0, c.1, c.2, ObjIds(ChunkLayer(ls, c)), codec)|) &&
      |Chunk(ls, c, codec)| <= |LinkedChunk(c.0, c.1, c.2, codec)| &&
      |Chunk(ls, c, codec)| <= |FullChunk(c.0, c.1, c.2, ObjIds(ChunkLayer(ls, c)), codec)|
  {
    var t := AttrsOf(ls);
    AttrTableFitsFromIds(ls);
    ChunksFit(ls, t);
    var c := Flatten(t)[m];
    FlattenMember(t, m);
    var i, j :| 0 <= i < |t| && 0 <= j < |t[i].1| && c == (t[i].0, t[i].1[j].0, t[i].1[j].1);
    StoredLayer(ls, i);
    var l := LayerWithId(ls, t[i].0);
    assert l in ls;
    StoredValues(l.objects, j);
    ChunkChoiceShorter(ls, c, codec);
  }

  /** `_write_attrs`: start flag, the chunk count, every chunk in table order, end flag. */
  function AttrsSection(ls: seq<LayerValue>, t: AttrTable, count: int, codec: Codec): seq<byte>
    requires IsU32(count) && AttrTableFits(t, ls)
  {
    ChunksFit(ls, t);
    [ATTRS_START] + IntToBytes(count) + Chunks(ls, Flatten(t), codec) + [ATTRS_END]
  }

  /**
   * With distinct layer ids, the count `_write_attrs` writes is the number
   * of chunks that follow it.
   */
  lemma AttrsSectionCount(ls: seq<LayerValue>, codec: Codec)
    requires DistinctLayerIds(ls) && IdsFit(ls) && IsU32(ChunkCount(ls))
    ensures AttrTableFits(AttrsOf(ls), ls)
    ensures AttrsSection(ls, AttrsOf(ls), ChunkCount(ls), codec)[0] == ATTRS_START
    ensures BigEndian(AttrsSection(ls, AttrsOf(ls), ChunkCount(ls), codec)[1..5]) == |Flatten(AttrsOf(ls))|
  {
    AttrTableFitsFromIds(ls);
    ChunkCountIsChunks(ls);
    FlattenSize(AttrsOf(ls));
    ChunksFit(ls, AttrsOf(ls));
    CountedSection(ATTRS_START, ChunkCount(ls), Chunks(ls, Flatten(AttrsOf(ls)), codec), ATTRS_END);
  }

  /***** The whole document *****/

  /**
   * Every number `write` would pass to `to_bytes(4, 'big')` lies in
   * [0, 2^32): counts, layer ids, object ids.  Outside this range Python
   * raises OverflowError, which the model does not follow.
   */
  predicate Fits(ls: seq<LayerValue>)
  {
    LayersFit(ls) && IdsFit(ls) && EdgesFit(Edges(AllObjects(ls))) && IsU32(ChunkCount(ls))
  }

  /** The relation table `write` builds first. */
  function RelationsOf(ls: seq<LayerValue>): RelationTable
  {
    AddRelations([], Edges(AllObjects(ls)))
  }

  /** The attribute table `write` builds second. */
  function AttrsOf(ls: seq<LayerValue>): AttrTable
  {
    AttrTableFrom([], ls)
  }

  /** `_Writer.write` on a fresh writer: the four sections in order. */
  function Serialize(encoding: string, ls: seq<LayerValue>, codec: Codec): seq<byte>
    requires Fits(ls)
  {
    RelationsFitFromEdges(Edges(AllObjects(ls)));
    AttrTableFitsFromIds(ls);
    var rels := RelationsOf(ls);
    HeaderSection(encoding) + LayersSection(ls, codec) + RelationsSection(rels, TotalSize(rels))
    + AttrsSection(ls, AttrsOf(ls), ChunkCount(ls), codec)
  }

  /** The four sections `write` appends, with the facts that make each one defined. */
  lemma SerializeSections(encoding: string, ls: seq<LayerValue>, codec: Codec)
    requires Fits(ls)
    ensures RelationsFit(RelationsOf(ls)) && AttrTableFits(AttrsOf(ls), ls)
    ensures Serialize(encoding, ls, codec) == HeaderSection(encoding) + LayersSection(ls, codec)
      + RelationsSection(RelationsOf(ls), TotalSize(RelationsOf(ls))) + AttrsSection(ls, AttrsOf(ls), ChunkCount(ls), codec)
  {
    RelationsFitFromEdges(Edges(AllObjects(ls)));
    AttrTableFitsFromIds(ls);
  }

  /**
   * The shape of a whole stream: the header runs up to h, the layers section
   * from h, the relations section from r and the attributes section from a
   * to the end; each section opens with its start flag, and the byte before
   * the next section is its end flag.
   */
  predicate Framed(s: seq<byte>, h: int, r: int, a: int)
  {
    1 <= h && h + 6 <= r && r + 6 <= a && a + 6 <= |s| &&
    s[0] == HEADER_START && s[h - 1] == HEADER_END &&
    s[h] == LAYERS_START && s[r - 1] == LAYERS_END &&
    s[r] == RELATIONS_START && s[a - 1] == RELATIONS_END &&
    s[a] == ATTRS_START && s[|s| - 1] == ATTRS_END
  }

  /** Four sections in a row, each with its start and end flag, are framed at the offsets their lengths give. */
  lemma FourSections(s: seq<byte>, hs: seq<byte>, lsec: seq<byte>, rsec: seq<byte>, asec: seq<byte>,
                     h: int, r: int, a: int)
    requires s == hs + lsec + rsec + asec
    requires |hs| == h && h >= 1 && hs[0] == HEADER_START && hs[|hs| - 1] == HEADER_END
    requires |lsec| == r - h && |lsec| >= 6 && lsec[0] == LAYERS_START && lsec[|lsec| - 1] == LAYERS_END
    requires |rsec| == a - r && |rsec| >= 6 && rsec[0] == RELATIONS_START && rsec[|rsec| - 1] == RELATIONS_END
    requires |asec| >= 6 && asec[0] == ATTRS_START && asec[|asec| - 1] == ATTRS_END
    ensures Framed(s, h, r, a)
  {
    assert s[h..r] == lsec;
    assert s[r..a] == rsec;
    assert s[a..] == asec;
  }

  /** The last byte of each section is its end flag. */
  lemma SectionEnds(encoding: string, ls: seq<LayerValue>, codec: Codec)
    requires Fits(ls) && RelationsFit(RelationsOf(ls)) && AttrTableFits(AttrsOf(ls), ls)
    ensures HeaderSection(encoding)[|HeaderSection(encoding)| - 1] == HEADER_END
    ensures LayersSection(ls, codec)[|LayersSection(ls, codec)| - 1] == LAYERS_END
    ensures RelationsSection(RelationsOf(ls), TotalSize(RelationsOf(ls)))[|RelationsSection(RelationsOf(ls), TotalSize(RelationsOf(ls)))| - 1] == RELATIONS_END
    ensures AttrsSection(ls, AttrsOf(ls), ChunkCount(ls), codec)[|AttrsSection(ls, AttrsOf(ls), ChunkCount(ls), codec)| - 1] == ATTRS_END
  {
  }

  /** Each of the four sections of `write`: its length, start flag and end flag. */
  lemma {:induction false} SectionFrames(encoding: string, ls: seq<LayerValue>, codec: Codec)
    requires Fits(ls) && RelationsFit(RelationsOf(ls)) && AttrTableFits(AttrsOf(ls), ls)
    ensures var hs := HeaderSection(encoding);
      |hs| == |Utf8(encoding)| + 3 && hs[0] == HEADER_START && hs[|hs| - 1] == HEADER_END
    ensures var lsec := LayersSection(ls, codec);
      |lsec| == 6 + LayerBytes(ls, codec) && lsec[0] == LAYERS_START && lsec[|lsec| - 1] == LAYERS_END
    ensures var rsec := RelationsSection(RelationsOf(ls), TotalSize(RelationsOf(ls)));
      |rsec| == 6 + GroupBytes(Flatten(RelationsOf(ls))) && rsec[0] == RELATIONS_START && rsec[|rsec| - 1] == RELATIONS_END
    ensures var asec := AttrsSection(ls, AttrsOf(ls), ChunkCount(ls), codec);
      |asec| >= 6 && asec[0] == ATTRS_START && asec[|asec| - 1] == ATTRS_END
  {
    var t := RelationsOf(ls);
    LayersSectionLayout(ls, codec);
    FlattenedGroupsFit(t);
    RelationBlocksLength(Flatten(t));
    RelationsSectionCount(t);
    ChunksFit(ls, AttrsOf(ls));
    CountedSection(ATTRS_START, ChunkCount(ls), Chunks(ls, Flatten(AttrsOf(ls)), codec), ATTRS_END);
    SectionEnds(encoding, ls, codec);
  }

  /** Where the relations section starts: after the header and the layers section. */
  function RelationsAt(encoding: string, ls: seq<LayerValue>, codec: Codec): int
  {
    |Utf8(encoding)| + 9 + LayerBytes(ls, codec)
  }

  /** Where the attributes section starts: after the relations section. */
  function AttrsAt(encoding: string, ls: seq<LayerValue>, codec: Codec): int
  {
    RelationsAt(encoding, ls, codec) + 6 + GroupBytes(Flatten(RelationsOf(ls)))
  }

  /**
   * Where `write` puts each section: the header closes at byte
   * |Utf8(encoding)| + 2, the layers section spans the layer blocks'
   * LayerBytes, the relations section the relation blocks' GroupBytes, and
   * the attributes section runs to the end, which is ATTRS_END.
   */
  lemma {:induction false} SerializeLayout(encoding: string, ls: seq<LayerValue>, codec: Codec)
    requires Fits(ls)
    ensures Framed(Serialize(encoding, ls, codec), |Utf8(encoding)| + 3, RelationsAt(encoding, ls, codec),
      AttrsAt(encoding, ls, codec))
  {
    SerializeSections(encoding, ls, codec);
    SectionFrames(encoding, ls, codec);
    FourSections(Serialize(encoding, ls, codec), HeaderSection(encoding), LayersSection(ls, codec),
      RelationsSection(RelationsOf(ls), TotalSize(RelationsOf(ls))), AttrsSection(ls, AttrsOf(ls), ChunkCount(ls), codec),
      |Utf8(encoding)| + 3, RelationsAt(encoding, ls, codec), AttrsAt(encoding, ls, codec));
  }
}

/**
 * `_write_linked_chunk` as tbf/core/parsing.py writes it: its last
 * statement is `self._write(CHUNK_END)`, and `_Writer` has no `_write`
 * method, so once the chunk's entries are on the stream Python raises
 * AttributeError and `write()` stops.  This module follows that code as it
 * stands; module Writer writes the CHUNK_END flag the call evidently meant.
 *
 * A run of the attribute writer is described by the bytes it leaves on the
 * stream and whether it ended by raising.
 */
module LinkedChunks {
  import opened Assoc
  import opened Bytes
  import opened Models
  import opened Tables
  import opened Format

  datatype Run = Run(bytes: seq<byte>, raised: bool)

  /** The linked chunk as written: header and entries, then AttributeError. */
  function LinkedChunkAsWritten(lid: int, key: string, vals: AttrValues, codec: Codec): (r: Run)
    requires IsU32(lid) && ValuesFit(vals)
    ensures r.raised
    ensures r.bytes + [CHUNK_END] == LinkedChunk(lid, key, vals, codec)
  {
    Run(LinkedChunkBody(lid, key, vals, codec), true)
  }

  /** One chunk as written; only the linked layout raises. */
  function ChunkAsWritten(ls: seq<LayerValue>, c: ChunkRow, codec: Codec): (r: Run)
    requires ChunkFits(ls, c)
    ensures r.raised <==> IsLinked(ls, c)
    ensures r.raised ==> r.bytes + [CHUNK_END] == Chunk(ls, c, codec)
    ensures !r.raised ==> r.bytes == Chunk(ls, c, codec)
  {
    if IsLinked(ls, c) then LinkedChunkAsWritten(c.0, c.1, c.2, codec)
    else Run(FullChunk(c.0, c.1, c.2, ObjIds(ChunkLayer(ls, c)), codec), false)
  }

  /***** Loops that stop at the first exception *****/

  /** Writing the runs in order, as a loop does that stops once one of them raises. */
  function Stop(rs: seq<Run>): Run
  {
    if rs == [] then Run([], false)
    else
      var w := Stop(rs[..|rs| - 1]);
      if w.raised then w else Run(w.bytes + rs[|rs| - 1].bytes, rs[|rs| - 1].raised)
  }

  /** The byte strings one after another. */
  function Concat(bs: seq<seq<byte>>): seq<byte>
  {
    if bs == [] then [] else Concat(bs[..|bs| - 1]) + bs[|bs| - 1]
  }

  lemma ConcatLast(bs: seq<seq<byte>>)
    requires bs != []
    ensures Concat(bs) == Concat(bs[..|bs| - 1]) + bs[|bs| - 1]
  {
  }

  /** The index of the first run that raises, or -1 when none does. */
  function FirstRaised(rs: seq<Run>): (r: int)
    ensures -1 <= r < |rs|
  {
    if rs == [] then -1
    else
      var r := FirstRaised(rs[..|rs| - 1]);
      if r != -1 then r else if rs[|rs| - 1].raised then |rs| - 1 else -1
  }

  lemma {:induction false} FirstRaisedSpec(rs: seq<Run>)
    ensures FirstRaised(rs) == -1 <==> forall i :: 0 <= i < |rs| ==> !rs[i].raised
    ensures FirstRaised(rs) != -1 ==> rs[FirstRaised(rs)].raised && forall i :: 0 <= i < FirstRaised(rs) ==> !rs[i].raised
  {
    if rs != [] {
      var n := |rs| - 1;
      FirstRaisedSpec(rs[..n]);
      assert forall i :: 0 <= i < n ==> rs[..n][i] == rs[i];
    }
  }

  /** Run i is the i-th piece as written: the same bytes, short of CHUNK_END exactly when it raises. */
  predicate RunsOf(rs: seq<Run>, bs: seq<seq<byte>>)
  {
    |rs| == |bs| &&
    forall i :: 0 <= i < |rs| ==> if rs[i].raised then rs[i].bytes + [CHUNK_END] == bs[i] else rs[i].bytes == bs[i]
  }

  lemma RunsOfPrefix(rs: seq<Run>, bs: seq<seq<byte>>, k: int)
    requires RunsOf(rs, bs) && 0 <= k <= |rs|
    ensures RunsOf(rs[..k], bs[..k])
  {
    assert forall i :: 0 <= i < k ==> rs[..k][i] == rs[i] && bs[..k][i] == bs[i];
  }

  /**
   * A loop that stops at the first raise writes all the pieces when none
   * raises, and when one does, every piece before it and that piece short
   * of its CHUNK_END.
   */
  lemma {:induction false} StopSpec(rs: seq<Run>, bs: seq<seq<byte>>)
    requires RunsOf(rs, bs)
    ensures Stop(rs).raised <==> FirstRaised(rs) != -1
    ensures !Stop(rs).raised ==> Stop(rs).bytes == Concat(bs)
    ensures Stop(rs).raised ==> Stop(rs).bytes + [CHUNK_END] == Concat(bs[..FirstRaised(rs) + 1])
  {
    if rs != [] {
      var n := |rs| - 1;
      RunsOfPrefix(rs, bs, n);
      StopSpec(rs[..n], bs[..n]);
      if FirstRaised(rs[..n]) != -1 {
        assert bs[..n][..FirstRaised(rs) + 1] == bs[..FirstRaised(rs) + 1];
      } else {
        assert bs[..n + 1] == bs;
        Regroup(Stop(rs[..n]).bytes, rs[n].bytes, [CHUNK_END]);
      }
    }
  }

  /** The pieces of a prefix are a prefix of all the pieces. */
  lemma {:induction false} ConcatPrefix(bs: seq<seq<byte>>, k: int)
    requires 0 <= k <= |bs|
    ensures Concat(bs[..k]) <= Concat(bs)
    decreases |bs| - k
  {
    if k < |bs| {
      ConcatPrefix(bs, k + 1);
      assert bs[..k + 1][..k] == bs[..k];
    } else {
      assert bs[..k] == bs;
    }
  }

  /***** The attribute section as written *****/

  /** Each chunk row as written. */
  function Runs(ls: seq<LayerValue>, cs: seq<ChunkRow>, codec: Codec): (r: seq<Run>)
    requires AllChunksFit(ls, cs)
    ensures |r| == |cs| && forall i :: 0 <= i < |cs| ==> r[i] == ChunkAsWritten(ls, cs[i], codec)
  {
    seq(|cs|, i requires 0 <= i < |cs| => ChunkAsWritten(ls, cs[i], codec))
  }

  /** Each chunk row as the corrected writer writes it. */
  function Bodies(ls: seq<LayerValue>, cs: seq<ChunkRow>, codec: Codec): (r: seq<seq<byte>>)
    requires AllChunksFit(ls, cs)
    ensures |r| == |cs| && forall i :: 0 <= i < |cs| ==> r[i] == Chunk(ls, cs[i], codec)
  {
    seq(|cs|, i requires 0 <= i < |cs| => Chunk(ls, cs[i], codec))
  }

  lemma BodiesPrefix(ls: seq<LayerValue>, cs: seq<ChunkRow>, k: int, codec: Codec)
    requires AllChunksFit(ls, cs) && 0 <= k <= |cs|
    ensures AllChunksFit(ls, cs[..k])
    ensures Bodies(ls, cs, codec)[..k] == Bodies(ls, cs[..k], codec)
  {
    assert forall i :: 0 <= i < k ==> cs[..k][i] == cs[i];
  }

  lemma ChunksLast(ls: seq<LayerValue>, cs: seq<ChunkRow>, codec: Codec)
    requires AllChunksFit(ls, cs) && cs != [] && AllChunksFit(ls, cs[..|cs| - 1])
    ensures Chunks(ls, cs, codec) == Chunks(ls, cs[..|cs| - 1], codec) + Chunk(ls, cs[|cs| - 1], codec)
  {
  }

  lemma {:induction false} ChunksConcat(ls: seq<LayerValue>, cs: seq<ChunkRow>, codec: Codec)
    requires AllChunksFit(ls, cs)
    ensures Chunks(ls, cs, codec) == Concat(Bodies(ls, cs, codec))
  {
    if cs != [] {
      BodiesPrefix(ls, cs, |cs| - 1, codec);
      ChunksConcat(ls, cs[..|cs| - 1], codec);
      ChunksLast(ls, cs, codec);
      ConcatLast(Bodies(ls, cs, codec));
    }
  }

  /** The loops of `_write_attrs` as written: they stop at the first chunk that raises. */
  function ChunksAsWritten(ls: seq<LayerValue>, cs: seq<ChunkRow>, codec: Codec): Run
    requires AllChunksFit(ls, cs)
  {
    Stop(Runs(ls, cs, codec))
  }

  /** Some chunk row takes the linked layout. */
  predicate SomeLinked(ls: seq<LayerValue>, cs: seq<ChunkRow>)
    requires AllChunksFit(ls, cs)
  {
    exists m :: 0 <= m < |cs| && IsLinked(ls, cs[m])
  }

  lemma RunsOfChunks(ls: seq<LayerValue>, cs: seq<ChunkRow>, codec: Codec)
    requires AllChunksFit(ls, cs)
    ensures RunsOf(Runs(ls, cs, codec), Bodies(ls, cs, codec))
  {
  }

  /** Some row raises exactly when some chunk takes the linked layout. */
  lemma RaisesIffLinked(ls: seq<LayerValue>, cs: seq<ChunkRow>, codec: Codec)
    requires AllChunksFit(ls, cs)
    ensures FirstRaised(Runs(ls, cs, codec)) != -1 <==> SomeLinked(ls, cs)
  {
    FirstRaisedSpec(Runs(ls, cs, codec));
    if FirstRaised(Runs(ls, cs, codec)) != -1 {
      assert IsLinked(ls, cs[FirstRaised(Runs(ls, cs, codec))]);
    }
  }

  lemma ChunksAsWrittenClean(ls: seq<LayerValue>, cs: seq<ChunkRow>, codec: Codec)
    requires AllChunksFit(ls, cs)
    ensures !ChunksAsWritten(ls, cs, codec).raised ==> ChunksAsWritten(ls, cs, codec).bytes == Chunks(ls, cs, codec)
  {
    RunsOfChunks(ls, cs, codec);
    StopSpec(Runs(ls, cs, codec), Bodies(ls, cs, codec));
    ChunksConcat(ls, cs, codec);
  }

  lemma ChunksAsWrittenPrefix(ls: seq<LayerValue>, cs: seq<ChunkRow>, codec: Codec)
    requires AllChunksFit(ls, cs)
    ensures ChunksAsWritten(ls, cs, codec).raised ==> ChunksAsWritten(ls, cs, codec).bytes + [CHUNK_END] <= Chunks(ls, cs, codec)
  {
    RunsOfChunks(ls, cs, codec);
    StopSpec(Runs(ls, cs, codec), Bodies(ls, cs, codec));
    ChunksConcat(ls, cs, codec);
    if ChunksAsWritten(ls, cs, codec).raised {
      ConcatPrefix(Bodies(ls, cs, codec), FirstRaised(Runs(ls, cs, codec)) + 1);
    }
  }

  /**
   * The attribute loops as written raise exactly when some chunk takes the
   * linked layout; otherwise they write the corrected chunks, and when they
   * raise they have written a prefix of them that lacks at least the linked
   * chunk's CHUNK_END.
   */
  lemma ChunksAsWrittenSpec(ls: seq<LayerValue>, cs: seq<ChunkRow>, codec: Codec)
    requires AllChunksFit(ls, cs)
    ensures ChunksAsWritten(ls, cs, codec).raised <==> SomeLinked(ls, cs)
    ensures !ChunksAsWritten(ls, cs, codec).raised ==> ChunksAsWritten(ls, cs, codec).bytes == Chunks(ls, cs, codec)
    ensures ChunksAsWritten(ls, cs, codec).raised ==> ChunksAsWritten(ls, cs, codec).bytes + [CHUNK_END] <= Chunks(ls, cs, codec)
  {
    RunsOfChunks(ls, cs, codec);
    StopSpec(Runs(ls, cs, codec), Bodies(ls, cs, codec));
    RaisesIffLinked(ls, cs, codec);
    ChunksAsWrittenClean(ls, cs, codec);
    ChunksAsWrittenPrefix(ls, cs, codec);
  }

  /** `_write_attrs` as written: ATTRS_END is reached only when no chunk raised. */
  function AttrsSectionAsWritten(ls: seq<LayerValue>, t: AttrTable, count: int, codec: Codec): Run
    requires IsU32(count) && AttrTableFits(t, ls)
  {
    ChunksFit(ls, t);
    var w := ChunksAsWritten(ls, Flatten(t), codec);
    var head := [ATTRS_START] + IntToBytes(count);
    if w.raised then Run(head + w.bytes, true) else Run(head + w.bytes + [ATTRS_END], false)
  }

  /** `write()` as written on a fresh writer. */
  function SerializeAsWritten(encoding: string, ls: seq<LayerValue>, codec: Codec): Run
    requires Fits(ls)
  {
    RelationsFitFromEdges(Edges(AllObjects(ls)));
    AttrTableFitsFromIds(ls);
    var rels := RelationsOf(ls);
    var a := AttrsSectionAsWritten(ls, AttrsOf(ls), ChunkCount(ls), codec);
    Run(HeaderSection(encoding) + LayersSection(ls, codec) + RelationsSection(rels, TotalSize(rels)) + a.bytes, a.raised)
  }

  /** A written prefix that stops short of a CHUNK_END stays a prefix with the same bytes around it. */
  lemma PrefixWithin(head: seq<byte>, w: seq<byte>, full: seq<byte>, tail: seq<byte>)
    requires w + [CHUNK_END] <= full
    ensures head + w + [CHUNK_END] <= head + full + tail
    ensures |head + w| + 1 + |tail| <= |head + full + tail|
  {
    assert head + w + [CHUNK_END] == head + (w + [CHUNK_END]);
    assert forall i :: 0 <= i < |head + w + [CHUNK_END]| ==> (head + w + [CHUNK_END])[i] == (head + full + tail)[i];
  }

  lemma PrefixAfter(pre: seq<byte>, w: seq<byte>, full: seq<byte>)
    requires w + [CHUNK_END] <= full && |w| + 2 <= |full|
    ensures pre + w + [CHUNK_END] <= pre + full
    ensures |pre + w| + 2 <= |pre + full|
  {
    assert pre + w + [CHUNK_END] == pre + (w + [CHUNK_END]);
  }

  /**
   * `_write_attrs` as written raises exactly when some chunk takes the
   * linked layout; otherwise it writes the corrected section, and when it
   * raises it has written a prefix of the corrected section that lacks at
   * least the linked chunk's CHUNK_END and the ATTRS_END flag.
   */
  lemma AttrsSectionAsWrittenSpec(ls: seq<LayerValue>, t: AttrTable, count: int, codec: Codec)
    requires IsU32(count) && AttrTableFits(t, ls)
    ensures AllChunksFit(ls, Flatten(t))
    ensures AttrsSectionAsWritten(ls, t, count, codec).raised <==> SomeLinked(ls, Flatten(t))
    ensures !AttrsSectionAsWritten(ls, t, count, codec).raised ==> AttrsSectionAsWritten(ls, t, count, codec).bytes == AttrsSection(ls, t, count, codec)
    ensures AttrsSectionAsWritten(ls, t, count, codec).raised ==>
      AttrsSectionAsWritten(ls, t, count, codec).bytes + [CHUNK_END] <= AttrsSection(ls, t, count, codec) &&
      |AttrsSectionAsWritten(ls, t, count, codec).bytes| + 2 <= |AttrsSection(ls, t, count, codec)|
  {
    ChunksFit(ls, t);
    AttrsSectionRaises(ls, t, count, codec);
    AttrsSectionClean(ls, t, count, codec);
    AttrsSectionPrefix(ls, t, count, codec);
  }

  lemma AttrsSectionRaises(ls: seq<LayerValue>, t: AttrTable, count: int, codec: Codec)
    requires IsU32(count) && AttrTableFits(t, ls) && AllChunksFit(ls, Flatten(t))
    ensures AttrsSectionAsWritten(ls, t, count, codec).raised <==> SomeLinked(ls, Flatten(t))
  {
    ChunksAsWrittenSpec(ls, Flatten(t), codec);
  }

  lemma AttrsSectionClean(ls: seq<LayerValue>, t: AttrTable, count: int, codec: Codec)
    requires IsU32(count) && AttrTableFits(t, ls) && AllChunksFit(ls, Flatten(t))
    ensures !AttrsSectionAsWritten(ls, t, count, codec).raised ==> AttrsSectionAsWritten(ls, t, count, codec).bytes == AttrsSection(ls, t, count, codec)
  {
    ChunksAsWrittenClean(ls, Flatten(t), codec);
  }

  lemma AttrsSectionPrefix(ls: seq<LayerValue>, t: AttrTable, count: int, codec: Codec)
    requires IsU32(count) && AttrTableFits(t, ls) && AllChunksFit(ls, Flatten(t))
    ensures AttrsSectionAsWritten(ls, t, count, codec).raised ==>
      AttrsSectionAsWritten(ls, t, count, codec).bytes + [CHUNK_END] <= AttrsSection(ls, t, count, codec) &&
      |AttrsSectionAsWritten(ls, t, count, codec).bytes| + 2 <= |AttrsSection(ls, t, count, codec)|
  {
    ChunksAsWrittenPrefix(ls, Flatten(t), codec);
    if ChunksAsWritten(ls, Flatten(t), codec).raised {
      PrefixWithin([ATTRS_START] + IntToBytes(count), ChunksAsWritten(ls, Flatten(t), codec).bytes, Chunks(ls, Flatten(t), codec), [ATTRS_END]);
    }
  }

  /**
   * `write()` as written: it raises exactly when some chunk of the
   * attribute table takes the linked layout.  Otherwise it writes what the
   * corrected writer writes; when it raises, the stream holds a proper
   * prefix of that, missing at least the linked chunk's CHUNK_END and the
   * ATTRS_END flag.
   */
  lemma SerializeAsWrittenSpec(encoding: string, ls: seq<LayerValue>, codec: Codec)
    requires Fits(ls)
    ensures AttrTableFits(AttrsOf(ls), ls) && AllChunksFit(ls, Flatten(AttrsOf(ls)))
    ensures SerializeAsWritten(encoding, ls, codec).raised <==> SomeLinked(ls, Flatten(AttrsOf(ls)))
    ensures !SerializeAsWritten(encoding, ls, codec).raised ==> SerializeAsWritten(encoding, ls, codec).bytes == Serialize(encoding, ls, codec)
    ensures SerializeAsWritten(encoding, ls, codec).raised ==>
      SerializeAsWritten(encoding, ls, codec).bytes + [CHUNK_END] <= Serialize(encoding, ls, codec) &&
      |SerializeAsWritten(encoding, ls, codec).bytes| + 2 <= |Serialize(encoding, ls, codec)|
  {
    RelationsFitFromEdges(Edges(AllObjects(ls)));
    AttrTableFitsFromIds(ls);
    ChunksFit(ls, AttrsOf(ls));
    SerializeRaises(encoding, ls, codec);
    SerializeClean(encoding, ls, codec);
    SerializePrefix(encoding, ls, codec);
  }

  lemma SerializeRaises(encoding: string, ls: seq<LayerValue>, codec: Codec)
    requires Fits(ls) && AttrTableFits(AttrsOf(ls), ls) && AllChunksFit(ls, Flatten(AttrsOf(ls)))
    ensures SerializeAsWritten(encoding, ls, codec).raised <==> SomeLinked(ls, Flatten(AttrsOf(ls)))
  {
    AttrsSectionRaises(ls, AttrsOf(ls), ChunkCount(ls), codec);
  }

  lemma SerializeClean(encoding: string, ls: seq<LayerValue>, codec: Codec)
    requires Fits(ls) && AttrTableFits(AttrsOf(ls), ls) && AllChunksFit(ls, Flatten(AttrsOf(ls)))
    ensures !SerializeAsWritten(encoding, ls, codec).raised ==> SerializeAsWritten(encoding, ls, codec).bytes == Serialize(encoding, ls, codec)
  {
    AttrsSectionClean(ls, AttrsOf(ls), ChunkCount(ls), codec);
  }

  lemma SerializePrefix(encoding: string, ls: seq<LayerValue>, codec: Codec)
    requires Fits(ls) && AttrTableFits(AttrsOf(ls), ls) && AllChunksFit(ls, Flatten(AttrsOf(ls)))
    ensures SerializeAsWritten(encoding, ls, codec).raised ==>
      SerializeAsWritten(encoding, ls, codec).bytes + [CHUNK_END] <= Serialize(encoding, ls, codec) &&
      |SerializeAsWritten(encoding, ls, codec).bytes| + 2 <= |Serialize(encoding, ls, codec)|
  {
    AttrsSectionPrefix(ls, AttrsOf(ls), ChunkCount(ls), codec);
    if AttrsSectionAsWritten(ls, AttrsOf(ls), ChunkCount(ls), codec).raised {
      RelationsFitFromEdges(Edges(AllObjects(ls)));
      PrefixAfter(HeaderSection(encoding) + LayersSection(ls, codec) + RelationsSection(RelationsOf(ls), TotalSize(RelationsOf(ls))),
        AttrsSectionAsWritten(ls, AttrsOf(ls), ChunkCount(ls), codec).bytes, AttrsSection(ls, AttrsOf(ls), ChunkCount(ls), codec));
    }
  }

  /***** A document that shows the fault *****/

  /** Objects with neither children nor attributes. */
  predicate Bare(objs: seq<ObjectValue>)
  {
    forall i :: 0 <= i < |objs| ==> objs[i].children == [] && objs[i].attrs == []
  }

  lemma {:induction false} BareObjects(objs: seq<ObjectValue>)
    requires Bare(objs)
    ensures Edges(objs) == [] && AttrEntries(objs) == []
  {
    if objs != [] {
      BareObjects(objs[..|objs| - 1]);
    }
  }

  /**
   * One layer of six objects, the last of which carries one attribute: a
   * linked chunk costs 5 bytes of overhead against 6 for a full one, so the
   * writer takes the linked layout.
   */
  function SixTokens(key: string, value: string): seq<LayerValue>
  {
    [LayerValue(0, "tokens", seq(5, j => ObjectValue(j, 0, [], [])) + [ObjectValue(5, 0, [], [(key, value)])])]
  }

  lemma SixTokensObjects(key: string, value: string)
    ensures AllObjects(SixTokens(key, value)) == SixTokens(key, value)[0].objects
    ensures Edges(SixTokens(key, value)[0].objects) == []
    ensures AttrEntries(SixTokens(key, value)[0].objects) == [AttrEntry(5, key, value)]
  {
    var objs := SixTokens(key, value)[0].objects;
    assert SixTokens(key, value)[..0] == [];
    assert objs[..5] == seq(5, j => ObjectValue(j, 0, [], []));
    BareObjects(objs[..5]);
    EdgesNext(objs, 5);
    AttrEntriesNext(objs, 5);
    assert objs[..6] == objs;
  }

  lemma OneAttr(key: string, oid: int, value: string)
    ensures AddAttrs([], [AttrEntry(oid, key, value)]) == [(key, [(oid, value)])]
  {
    assert !HasKey<string, AttrValues>([], key) && !HasKey<int, string>([], oid);
    assert GetOr<string, AttrValues>([], key, []) == [];
    assert [AttrEntry(oid, key, value)][..0] == [];
  }

  lemma SixTokensTable(key: string, value: string)
    ensures AttrsOf(SixTokens(key, value)) == [(0, [(key, [(5, value)])])]
    ensures ChunkCount(SixTokens(key, value)) == 1
  {
    SixTokensObjects(key, value);
    OneAttr(key, 5, value);
    assert LayerAttrTable(SixTokens(key, value)[0].objects) == [(key, [(5, value)])];
    assert SixTokens(key, value)[..0] == [];
    assert AttrTableFrom([], SixTokens(key, value)[..0]) == [];
    assert !HasKey<int, LayerAttrs>([], 0);
    assert AttrsOf(SixTokens(key, value)) == Put([], 0, LayerAttrTable(SixTokens(key, value)[0].objects));
  }

  lemma SixTokensFit(key: string, value: string)
    ensures Fits(SixTokens(key, value))
  {
    SixTokensObjects(key, value);
    SixTokensTable(key, value);
    assert LayersFit(SixTokens(key, value));
    SixTokensIds(key, value);
    assert EdgesFit(Edges(AllObjects(SixTokens(key, value))));
  }

  lemma SixTokensIds(key: string, value: string)
    ensures IdsFit(SixTokens(key, value))
  {
    forall j | 0 <= j < |SixTokens(key, value)[0].objects|
      ensures 0 <= SixTokens(key, value)[0].objects[j].id < 6
    {
      if j < 5 {
        assert SixTokens(key, value)[0].objects[j] == ObjectValue(j, 0, [], []);
      }
    }
  }

  lemma SixTokensChunks(key: string, value: string)
    ensures Flatten(AttrsOf(SixTokens(key, value))) == [(0, key, [(5, value)])]
  {
    SixTokensTable(key, value);
    assert AttrsOf(SixTokens(key, value))[..0] == [];
  }

  /** The document's only chunk takes the linked layout. */
  lemma SixTokensLinked(key: string, value: string)
    ensures AllChunksFit(SixTokens(key, value), [(0, key, [(5, value)])])
    ensures SomeLinked(SixTokens(key, value), [(0, key, [(5, value)])])
  {
    var cs: seq<ChunkRow> := [(0, key, [(5, value)])];
    assert LayerIds(SixTokens(key, value)) == [0];
    assert IsLinked(SixTokens(key, value), cs[0]);
  }

  /** `write()` as written raises on that document, whatever its encoding and attribute. */
  lemma SixTokensRaise(encoding: string, key: string, value: string, codec: Codec)
    ensures Fits(SixTokens(key, value))
    ensures SerializeAsWritten(encoding, SixTokens(key, value), codec).raised
  {
    SixTokensFit(key, value);
    AttrTableFitsFromIds(SixTokens(key, value));
    SixTokensChunks(key, value);
    SixTokensLinked(key, value);
    SerializeRaises(encoding, SixTokens(key, value), codec);
  }
}

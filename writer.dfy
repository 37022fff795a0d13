/**
 * `_Writer` (tbf/core/parsing.py): serialises a Document to an output
 * stream.  The stream is the `output` field, a byte sequence the writer
 * only ever appends to.  The two preparation passes fill the writer's
 * grouping tables and counters; the four write passes then append the
 * header, layers, relations and attributes sections.
 *
 * Each method is specified by the section function of module Format that
 * describes its bytes, so `Write` ends with exactly `Serialize` of the
 * document's contents appended to the stream.  The writer only reads the
 * document: `Write` takes its contents once, as a value, and hands that
 * value to the passes that read it.
 */
module Writer {
  import opened Assoc
  import opened Bytes
  import opened Models
  import opened Tables
  import opened Format

  /***** The loops of the two preparation passes *****/

  /** The inner loop of `_prepare_relations_for_writing`: one object's links, child by child. */
  method AddLinks(rels: RelationTable, obj: ObjectValue) returns (r: RelationTable)
    ensures r == AddRelations(rels, ObjectEdges(obj))
  {
    ghost var oes := ObjectEdges(obj);
    r := rels;
    for j := 0 to |obj.children|
      invariant r == AddRelations(rels, oes[..j])
    {
      var child := obj.children[j];
      assert oes[j] == Edge(obj.layer, child.layer, obj.id, child.id);
      TakeNext(oes, j);
      AddRelationsNext(rels, oes[..j], oes[j]);
      r := AddRelation(r, Edge(obj.layer, child.layer, obj.id, child.id));
    }
    TakeAll(oes);
  }

  /**
   * The outer loop of `_prepare_relations_for_writing`; objects without
   * children are skipped, as the source's `len(obj.children) > 0` test does.
   */
  method AddAllLinks(rels: RelationTable, objs: seq<ObjectValue>) returns (r: RelationTable)
    ensures r == AddRelations(rels, Edges(objs))
  {
    r := rels;
    for i := 0 to |objs|
      invariant r == AddRelations(rels, Edges(objs[..i]))
    {
      var obj := objs[i];
      if |obj.children| > 0 {
        r := AddLinks(r, obj);
      } else {
        assert ObjectEdges(obj) == [];
      }
      AddRelationsAppend(rels, Edges(objs[..i]), ObjectEdges(obj));
      EdgesNext(objs, i);
    }
    TakeAll(objs);
  }

  /** The counting loop of `_prepare_relations_for_writing`: the number of groups of a table. */
  method CountGroups(rels: RelationTable) returns (n: int)
    ensures n == TotalSize(rels)
  {
    n := 0;
    for i := 0 to |rels|
      invariant n == TotalSize(rels[..i])
    {
      n := n + |rels[i].1|;
      TotalSizeNext(rels, i);
    }
    TakeAll(rels);
  }

  /** The innermost loop of `_prepare_attrs_for_writing`: one object's attributes, in its own order. */
  method AddObjectAttrs(t: LayerAttrs, obj: ObjectValue) returns (r: LayerAttrs)
    ensures r == AddAttrs(t, ObjectAttrs(obj))
  {
    ghost var oas := ObjectAttrs(obj);
    r := t;
    for k := 0 to |obj.attrs|
      invariant r == AddAttrs(t, oas[..k])
    {
      var key, value := obj.attrs[k].0, obj.attrs[k].1;
      assert oas[k] == AttrEntry(obj.id, key, value);
      TakeNext(oas, k);
      AddAttrsNext(t, oas[..k], oas[k]);
      r := AddAttr(r, AttrEntry(obj.id, key, value));
    }
    TakeAll(oas);
  }

  /**
   * The table of one layer, filled object by object.  In the source it is
   * the dictionary stored under the layer's id and filled in place; storing
   * it once filled gives the same outer table, because the position of the
   * layer's key is fixed when the empty dictionary is stored.
   */
  method FillLayerAttrs(objs: seq<ObjectValue>) returns (r: LayerAttrs)
    ensures r == LayerAttrTable(objs)
  {
    r := [];
    for j := 0 to |objs|
      invariant r == AddAttrs([], AttrEntries(objs[..j]))
    {
      r := AddObjectAttrs(r, objs[j]);
      AddAttrsAppend([], AttrEntries(objs[..j]), ObjectAttrs(objs[j]));
      AttrEntriesNext(objs, j);
    }
    TakeAll(objs);
  }

  /** The outer loop of `_prepare_attrs_for_writing`, with the chunk count it adds up. */
  method FillAttrs(t: AttrTable, ls: seq<LayerValue>) returns (r: AttrTable, chunks: int)
    ensures r == AttrTableFrom(t, ls)
    ensures chunks == ChunkCount(ls)
  {
    r, chunks := t, 0;
    for i := 0 to |ls|
      invariant r == AttrTableFrom(t, ls[..i])
      invariant chunks == ChunkCount(ls[..i])
    {
      var layer := ls[i];
      ghost var before := r;
      r := Put(r, layer.id, []);
      var layerAttrs := FillLayerAttrs(layer.objects);
      r := Put(r, layer.id, layerAttrs);
      PutPut(before, layer.id, [], layerAttrs);
      chunks := chunks + |layerAttrs|;
      AttrTableFromNext(t, ls, i);
    }
    TakeAll(ls);
  }

  class Writer {
    const document: Document
    /** `self.encoding`: read once from the document's header. */
    const encoding: string
    /** `str.encode(self.encoding)` */
    const codec: Codec
    var output: seq<byte>
    var relations: RelationTable
    var numRelations: int
    var attributes: AttrTable
    var numChunks: int

    /** The writer was made from a document with a header and kept its encoding. */
    predicate Valid()
    {
      document.header.Some? && encoding == document.header.value.encoding
    }

    /**
     * `_Writer(document, output_stream)`.  Reading `document.header.encoding`
     * fails with AttributeError when the document has no header, so one is required.
     */
    constructor (document: Document, codec: Codec, output: seq<byte>)
      requires document.header.Some?
      ensures Valid()
      ensures this.document == document && this.codec == codec && this.output == output
      ensures relations == [] && numRelations == 0 && attributes == [] && numChunks == 0
    {
      this.document := document;
      this.encoding := document.header.value.encoding;
      this.codec := codec;
      this.output := output;
      relations := [];
      numRelations := 0;
      attributes := [];
      numChunks := 0;
    }

    /***** Primitive writes *****/

    /** `_write_flag`: one byte, `chr(flag).encode()`. */
    method WriteFlag(flag: byte)
      requires flag < 0x80
      modifies this`output
      ensures output == old(output) + [flag]
    {
      output := output + OrdToBytes(flag);
    }

    method WriteSep()
      modifies this`output
      ensures output == old(output) + [SEPARATOR]
    {
      WriteFlag(SEPARATOR);
    }

    /** `_write_int`: four bytes, big-endian. */
    method WriteInt(n: int)
      requires IsU32(n)
      modifies this`output
      ensures output == old(output) + IntToBytes(n)
      ensures BigEndian(output[|old(output)|..]) == n
    {
      output := output + IntToBytes(n);
      assert output[|old(output)|..] == IntToBytes(n);
    }

    /** `_write_string`: the string in the document's encoding. */
    method WriteString(s: string)
      modifies this`output
      ensures output == old(output) + codec(s)
    {
      output := output + codec(s);
    }

    /***** Header and layers *****/

    /** `_write_header`: the encoding name is written in UTF-8 whatever the document's encoding. */
    method WriteHeader()
      requires Valid()
      modifies this`output
      ensures output == old(output) + HeaderSection(encoding)
    {
      ghost var o := output;
      WriteFlag(HEADER_START);
      output := output + Utf8(document.header.value.encoding);
      Regroup(o, [HEADER_START], Utf8(encoding));
      WriteSep();
      Regroup(o, [HEADER_START] + Utf8(encoding), [SEPARATOR]);
      WriteFlag(HEADER_END);
      Regroup(o, [HEADER_START] + Utf8(encoding) + [SEPARATOR], [HEADER_END]);
    }

    /** `_write_layer` */
    method WriteLayer(layer: LayerValue)
      requires IsU32(|layer.objects|)
      modifies this`output
      ensures output == old(output) + LayerBlock(layer, codec)
    {
      ghost var o := output;
      WriteFlag(LAYER_START);
      WriteString(layer.name);
      Regroup(o, [LAYER_START], codec(layer.name));
      WriteSep();
      Regroup(o, [LAYER_START] + codec(layer.name), [SEPARATOR]);
      WriteInt(|layer.objects|);
      Regroup(o, [LAYER_START] + codec(layer.name) + [SEPARATOR], IntToBytes(|layer.objects|));
      WriteFlag(LAYER_END);
      Regroup(o, [LAYER_START] + codec(layer.name) + [SEPARATOR] + IntToBytes(|layer.objects|), [LAYER_END]);
    }

    /** `_write_layers`: the number of layers, then each layer in document order. */
    method WriteLayers(doc: seq<LayerValue>)
      requires LayersFit(doc)
      modifies this`output
      ensures output == old(output) + LayersSection(doc, codec)
    {
      ghost var o := output;
      WriteFlag(LAYERS_START);
      WriteInt(|doc|);
      Regroup(o, [LAYERS_START], IntToBytes(|doc|));
      ghost var start := output;
      for i := 0 to |doc|
        invariant ObjectCountsFit(doc[..i])
        invariant output == start + LayerBlocks(doc[..i], codec)
      {
        WriteLayer(doc[i]);
        LayerBlocksAppend(doc[..i], doc[i], codec);
        Regroup(start, LayerBlocks(doc[..i], codec), LayerBlock(doc[i], codec));
        TakeNext(doc, i);
      }
      TakeAll(doc);
      Regroup(o, [LAYERS_START] + IntToBytes(|doc|), LayerBlocks(doc, codec));
      WriteFlag(LAYERS_END);
      Regroup(o, [LAYERS_START] + IntToBytes(|doc|) + LayerBlocks(doc, codec), [LAYERS_END]);
    }

    /***** Relations *****/

    /**
     * `_prepare_relations_for_writing`: every child link of every object,
     * in `get_all_objects()` order, is added to the relation table, and the
     * number of groups of the resulting table is added to the counter.
     */
    method PrepareRelations(doc: seq<LayerValue>)
      modifies this`relations, this`numRelations
      ensures relations == AddRelations(old(relations), Edges(AllObjects(doc)))
      ensures numRelations == old(numRelations) + TotalSize(relations)
    {
      relations := AddAllLinks(relations, AllObjects(doc));
      var n := CountGroups(relations);
      numRelations := numRelations + n;
    }

    /** The pairs of one group, parent id then child id. */
    method WritePairs(pairs: Pairs)
      requires PairsFit(pairs)
      modifies this`output
      ensures output == old(output) + PairsBytes(pairs)
    {
      for k := 0 to |pairs|
        invariant PairsFit(pairs[..k])
        invariant output == old(output) + PairsBytes(pairs[..k])
      {
        ghost var w := PairsBytes(pairs[..k]);
        WriteInt(pairs[k].0);
        Regroup(old(output), w, IntToBytes(pairs[k].0));
        WriteInt(pairs[k].1);
        Regroup(old(output), w + IntToBytes(pairs[k].0), IntToBytes(pairs[k].1));
        PairsBytesAppend(pairs[..k], pairs[k]);
        TakeNext(pairs, k);
      }
      TakeAll(pairs);
    }

    /** The body of the inner loop of `_write_relations`: one group. */
    method WriteRelation(parentLayer: int, childLayer: int, valueTuples: Pairs)
      requires GroupFits((parentLayer, childLayer, valueTuples))
      modifies this`output
      ensures output == old(output) + RelationBlock((parentLayer, childLayer, valueTuples))
    {
      ghost var o := output;
      WriteFlag(RELATION_START);
      WriteInt(parentLayer);
      Regroup(o, [RELATION_START], IntToBytes(parentLayer));
      WriteInt(childLayer);
      Regroup(o, [RELATION_START] + IntToBytes(parentLayer), IntToBytes(childLayer));
      WriteInt(|valueTuples|);
      Regroup(o, [RELATION_START] + IntToBytes(parentLayer) + IntToBytes(childLayer), IntToBytes(|valueTuples|));
      WritePairs(valueTuples);
      Regroup(o, [RELATION_START] + IntToBytes(parentLayer) + IntToBytes(childLayer) + IntToBytes(|valueTuples|), PairsBytes(valueTuples));
      WriteFlag(RELATION_END);
      Regroup(o, [RELATION_START] + IntToBytes(parentLayer) + IntToBytes(childLayer) + IntToBytes(|valueTuples|) + PairsBytes(valueTuples), [RELATION_END]);
    }

    /** The inner loop of `_write_relations`: the groups of one parent layer, in table order. */
    method WriteGroups(parentLayer: int, childRels: Dict<int, Pairs>)
      requires IsU32(parentLayer) && GroupsFit(childRels)
      modifies this`output
      ensures AllGroupsFit(Row(parentLayer, childRels))
      ensures output == old(output) + RelationBlocks(Row(parentLayer, childRels))
    {
      ghost var row := Row(parentLayer, childRels);
      GroupRowFits(parentLayer, childRels);
      for j := 0 to |childRels|
        invariant output == old(output) + RelationBlocks(row[..j])
      {
        var childLayer, valueTuples := childRels[j].0, childRels[j].1;
        assert row[j] == (parentLayer, childLayer, valueTuples);
        WriteRelation(parentLayer, childLayer, valueTuples);
        RelationBlocksAppend(row[..j], row[j]);
        Regroup(old(output), RelationBlocks(row[..j]), RelationBlock(row[j]));
        TakeNext(row, j);
      }
      TakeAll(row);
    }

    /** `_write_relations`: the groups of the relation table, in table order. */
    method WriteRelations()
      requires GroupTableFits(relations) && IsU32(numRelations)
      modifies this`output
      ensures output == old(output) + RelationsSection(relations, numRelations)
    {
      ghost var o := output;
      WriteFlag(RELATIONS_START);
      WriteInt(numRelations);
      Regroup(o, [RELATIONS_START], IntToBytes(numRelations));
      ghost var start := output;
      for i := 0 to |relations|
        invariant AllGroupsFit(Flatten(relations[..i]))
        invariant output == start + RelationBlocks(Flatten(relations[..i]))
      {
        ghost var done := Flatten(relations[..i]);
        ghost var row := Row(relations[i].0, relations[i].1);
        WriteGroups(relations[i].0, relations[i].1);
        RelationBlocksConcat(done, row);
        Regroup(start, RelationBlocks(done), RelationBlocks(row));
        FlattenNext(relations, i);
        TakeAll(relations[i].1);
      }
      TakeAll(relations);
      Regroup(o, [RELATIONS_START] + IntToBytes(numRelations), RelationBlocks(Flatten(relations)));
      WriteFlag(RELATIONS_END);
      Regroup(o, [RELATIONS_START] + IntToBytes(numRelations) + RelationBlocks(Flatten(relations)), [RELATIONS_END]);
    }

    /***** Attributes *****/

    /**
     * `_prepare_attrs_for_writing`: for each layer in document order its
     * entry is reset to an empty dictionary and filled from its objects'
     * attributes; the number of names in it is added to the chunk counter.
     */
    method PrepareAttrs(doc: seq<LayerValue>)
      modifies this`attributes, this`numChunks
      ensures attributes == AttrTableFrom(old(attributes), doc)
      ensures numChunks == old(numChunks) + ChunkCount(doc)
    {
      var chunks;
      attributes, chunks := FillAttrs(attributes, doc);
      numChunks := numChunks + chunks;
    }

    /** `_write_full_chunk`: one value slot per object of the layer, in layer order. */
    method WriteFullChunk(doc: seq<LayerValue>, layerId: int, attrName: string, attrValues: AttrValues)
      requires ChunkFits(doc, (layerId, attrName, attrValues))
      modifies this`output
      ensures output == old(output) + FullChunk(layerId, attrName, attrValues, ObjIds(ChunkLayer(doc, (layerId, attrName, attrValues))), codec)
    {
      ghost var o := output;
      WriteFlag(CHUNK_FULL_START);
      WriteInt(layerId);
      Regroup(o, [CHUNK_FULL_START], IntToBytes(layerId));
      WriteString(attrName);
      Regroup(o, [CHUNK_FULL_START] + IntToBytes(layerId), codec(attrName));
      WriteSep();
      Regroup(o, [CHUNK_FULL_START] + IntToBytes(layerId) + codec(attrName), [SEPARATOR]);
      ghost var head := [CHUNK_FULL_START] + IntToBytes(layerId) + codec(attrName) + [SEPARATOR];
      var layer := LayerWithId(doc, layerId);
      ghost var ids := ObjIds(layer.objects);
      ghost var start := output;
      for k := 0 to |layer.objects|
        invariant output == start + FullValues(ids[..k], attrValues, codec)
      {
        ghost var w := FullValues(ids[..k], attrValues, codec);
        var objValue := Get(attrValues, layer.objects[k].id);
        if objValue.Some? && objValue.value != "" {
          WriteString(objValue.value);
        }
        assert output == start + w + Shown(objValue, codec);
        WriteSep();
        Regroup(start, w, Shown(objValue, codec));
        Regroup(start, w + Shown(objValue, codec), [SEPARATOR]);
        TakeNext(ids, k);
      }
      TakeAll(ids);
      Regroup(o, head, FullValues(ids, attrValues, codec));
      WriteFlag(CHUNK_END);
      Regroup(o, head + FullValues(ids, attrValues, codec), [CHUNK_END]);
    }

    /** The loop of `_write_linked_chunk`: object id, value and separator for each stored value. */
    method WriteEntries(attrValues: AttrValues)
      requires ValuesFit(attrValues)
      modifies this`output
      ensures output == old(output) + LinkedEntries(attrValues, codec)
    {
      ghost var start := output;
      for k := 0 to |attrValues|
        invariant ValuesFit(attrValues[..k])
        invariant output == start + LinkedEntries(attrValues[..k], codec)
      {
        ghost var w := LinkedEntries(attrValues[..k], codec);
        WriteInt(attrValues[k].0);
        Regroup(start, w, IntToBytes(attrValues[k].0));
        WriteString(attrValues[k].1);
        Regroup(start, w + IntToBytes(attrValues[k].0), codec(attrValues[k].1));
        WriteSep();
        Regroup(start, w + IntToBytes(attrValues[k].0) + codec(attrValues[k].1), [SEPARATOR]);
        TakeNext(attrValues, k);
      }
      TakeAll(attrValues);
    }

    /**
     * `_write_linked_chunk`: an (object id, value) entry per stored value.
     * The source's last statement calls a method that does not exist; this
     * writes the CHUNK_END flag it evidently meant (module LinkedChunks
     * models the statement as written).
     */
    method WriteLinkedChunk(layerId: int, attrName: string, attrValues: AttrValues)
      requires IsU32(layerId) && ValuesFit(attrValues)
      modifies this`output
      ensures output == old(output) + LinkedChunk(layerId, attrName, attrValues, codec)
    {
      ghost var o := output;
      WriteFlag(CHUNK_LINKED_START);
      WriteInt(layerId);
      Regroup(o, [CHUNK_LINKED_START], IntToBytes(layerId));
      WriteString(attrName);
      Regroup(o, [CHUNK_LINKED_START] + IntToBytes(layerId), codec(attrName));
      WriteSep();
      Regroup(o, [CHUNK_LINKED_START] + IntToBytes(layerId) + codec(attrName), [SEPARATOR]);
      ghost var head := [CHUNK_LINKED_START] + IntToBytes(layerId) + codec(attrName) + [SEPARATOR];
      WriteEntries(attrValues);
      Regroup(o, head, LinkedEntries(attrValues, codec));
      WriteFlag(CHUNK_END);
      Regroup(o, head + LinkedEntries(attrValues, codec), [CHUNK_END]);
    }

    /** The body of the inner loop of `_write_attrs`: a linked chunk when its overhead is smaller. */
    method WriteChunk(doc: seq<LayerValue>, layerId: int, attrName: string, attrValues: AttrValues)
      requires ChunkFits(doc, (layerId, attrName, attrValues))
      modifies this`output
      ensures output == old(output) + Chunk(doc, (layerId, attrName, attrValues), codec)
    {
      var layerObjects := LayerWithId(doc, layerId).objects;
      if LinkedChunkOverhead(|attrValues|) < FullChunkOverhead(|layerObjects|) {
        WriteLinkedChunk(layerId, attrName, attrValues);
      } else {
        WriteFullChunk(doc, layerId, attrName, attrValues);
      }
    }

    /** The inner loop of `_write_attrs`: a chunk per attribute of one layer, in table order. */
    method WriteLayerChunks(doc: seq<LayerValue>, layerId: int, layerAttrs: Dict<string, AttrValues>)
      requires AllChunksFit(doc, Row(layerId, layerAttrs))
      modifies this`output
      ensures output == old(output) + Chunks(doc, Row(layerId, layerAttrs), codec)
    {
      ghost var start := output;
      for j := 0 to |layerAttrs|
        invariant AllChunksFit(doc, Row(layerId, layerAttrs[..j]))
        invariant output == start + Chunks(doc, Row(layerId, layerAttrs[..j]), codec)
      {
        var attrName, attrValues := layerAttrs[j].0, layerAttrs[j].1;
        ghost var before := Row(layerId, layerAttrs[..j]);
        ghost var c: ChunkRow := (layerId, attrName, attrValues);
        assert Row(layerId, layerAttrs)[j] == c;
        WriteChunk(doc, layerId, attrName, attrValues);
        Regroup(start, Chunks(doc, before, codec), Chunk(doc, c, codec));
        RowNext(layerId, layerAttrs, j);
        assert (before + [c])[..|before|] == before;
      }
      TakeAll(layerAttrs);
    }

    /** `_write_attrs`: each (layer, name) of the attribute table as one chunk, in table order. */
    method WriteAttrs(doc: seq<LayerValue>)
      requires IsU32(numChunks) && AttrTableFits(attributes, doc)
      modifies this`output
      ensures output == old(output) + AttrsSection(doc, attributes, numChunks, codec)
    {
      ghost var o := output;
      WriteFlag(ATTRS_START);
      WriteInt(numChunks);
      Regroup(o, [ATTRS_START], IntToBytes(numChunks));
      ghost var start := output;
      ChunksFit(doc, attributes);
      for i := 0 to |attributes|
        invariant AllChunksFit(doc, Flatten(attributes[..i]))
        invariant output == start + Chunks(doc, Flatten(attributes[..i]), codec)
      {
        ghost var done := Flatten(attributes[..i]);
        RowFits(doc, attributes, i);
        WriteLayerChunks(doc, attributes[i].0, attributes[i].1);
        ChunksAppend(doc, done, Row(attributes[i].0, attributes[i].1), codec);
        Regroup(start, Chunks(doc, done, codec), Chunks(doc, Row(attributes[i].0, attributes[i].1), codec));
        FlattenNext(attributes, i);
        TakeAll(attributes[i].1);
      }
      TakeAll(attributes);
      Regroup(o, [ATTRS_START] + IntToBytes(numChunks), Chunks(doc, Flatten(attributes), codec));
      WriteFlag(ATTRS_END);
      Regroup(o, [ATTRS_START] + IntToBytes(numChunks) + Chunks(doc, Flatten(attributes), codec), [ATTRS_END]);
    }

    /***** The whole document *****/

    /**
     * The second half of `write()`: once both tables are prepared, the four
     * sections are appended in order.
     */
    method WriteSections(doc: seq<LayerValue>)
      requires Valid() && LayersFit(doc)
      requires GroupTableFits(relations) && IsU32(numRelations)
      requires AttrTableFits(attributes, doc) && IsU32(numChunks)
      modifies this`output
      ensures output == old(output) + (HeaderSection(encoding) + LayersSection(doc, codec)
        + RelationsSection(relations, numRelations) + AttrsSection(doc, attributes, numChunks, codec))
    {
      ghost var o := output;
      WriteHeader();
      WriteLayers(doc);
      Regroup(o, HeaderSection(encoding), LayersSection(doc, codec));
      ghost var w := HeaderSection(encoding) + LayersSection(doc, codec);
      WriteRelations();
      Regroup(o, w, RelationsSection(relations, numRelations));
      w := w + RelationsSection(relations, numRelations);
      WriteAttrs(doc);
      Regroup(o, w, AttrsSection(doc, attributes, numChunks, codec));
    }

    /**
     * `write()` on a fresh writer: both tables are prepared and the four
     * sections are appended, so the stream grows by exactly the
     * serialisation of the document's contents.  The writer never changes
     * the document, so every pass reads the contents it had when `write`
     * was called; the passes are given that value.
     */
    method Write()
      requires Valid() && document.Valid() && Fits(document.Value())
      requires relations == [] && numRelations == 0 && attributes == [] && numChunks == 0
      modifies this`output, this`relations, this`numRelations, this`attributes, this`numChunks
      ensures relations == RelationsOf(old(document.Value())) && numRelations == TotalSize(relations)
      ensures attributes == AttrsOf(old(document.Value())) && numChunks == ChunkCount(old(document.Value()))
      ensures output == old(output) + Serialize(encoding, old(document.Value()), codec)
    {
      var doc := document.Value();
      PrepareRelations(doc);
      PrepareAttrs(doc);
      SerializeSections(encoding, doc, codec);
      WriteSections(doc);
    }
  }
}

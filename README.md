# Typecraft Binary Format writer, in Dafny

This project models the serialiser of the Typecraft Binary Format (TBF), a
compact binary format for interlinear glossed text. The serialiser is the
`_Writer` class of `tbf/core/parsing.py`. The project also models the
in-memory document it serialises, from `tbf/core/models.py`.

A `Document` is a list of `Layer`s plus an index from layer id to layer. A
`Layer` is a named list of `LayerObject`s. A `LayerObject` knows its id, the
id of its layer, its children and a dictionary of string attributes.
`_Writer.write()` runs two preparation passes:

- the relation pass groups every parent-child link by (parent layer, child layer);
- the attribute pass groups every attribute value by (layer, attribute name).

It then appends four sections to the output stream:

1. **Header:** HEADER_START, the encoding name in UTF-8, a 0x00 separator, HEADER_END.
2. **Layers:** LAYERS_START and a 4-byte layer count. Then one block per layer: LAYER_START, name, separator, 4-byte object count, LAYER_END. Then LAYERS_END.
3. **Relations:** RELATIONS_START and a 4-byte group count. Then one block per group: RELATION_START, parent layer, child layer, pair count, the (parent id, child id) pairs, RELATION_END. Then RELATIONS_END.
4. **Attributes:** ATTRS_START and a 4-byte chunk count. Then one chunk per (layer, attribute name), followed by ATTRS_END.

A chunk is written "full" or "linked":

- A full chunk has one slot per object of the layer. Each slot is the value, when present and non-empty, then a separator.
- A linked chunk lists (object id, value, separator) for the stored values only.
- The linked layout is chosen exactly when its overhead (5 bytes per stored value) is smaller than the full layout's (1 byte per object).

Numbers are 4-byte big-endian. Flags are single bytes.

Modules, one per file:

- `Assoc` (`assoc.dfy`): Python's insertion-ordered `dict` as an association list. `Put` is `d[k] = v`.
- `Bytes` (`bytes.dfy`): bytes, 4-byte big-endian integers (`int.to_bytes(4, 'big')`), UTF-8, `chr(flag).encode()`.
- `Models` (`models.dfy`): `LayerObject`, `Layer` and `Document` as classes updated in place. Each has a `Value()` datatype snapshot of its contents.
- `Tables` (`tables.dfy`): the two grouping tables, as functions of the document's contents, with lemmas saying what ends up in them.
- `Format` (`format.dfy`): every section's bytes as a function of the document. There are layout lemmas for each, and the lemma that the chunk choice picks the shorter layout.
- `Writer` (`writer.dfy`): the `_Writer` class. Its `output` field is a byte sequence that only grows. Each method is proved to append exactly the bytes its `Format` function describes.
- `LinkedChunks` (`linked.dfy`): the attribute pass *as written*. The linked-chunk branch raises, so the pass stops at the first such chunk; this module states exactly what is on the stream then. See Findings.
- `Vectors` (`examples.dfy`): the byte strings the test suite expects. The relation and attribute tests' documents are built as values and run through the preparation passes and the `Format` functions.

Where the code and its description differ, the model follows the code. The one exception is the last statement of `_write_linked_chunk`, which cannot run as written: the writer closes the linked chunk with CHUNK_END, and the code as written is modelled beside it (see Findings). Two further choices:

- The text codec is a parameter `codec` of type `Codec = string -> seq<byte>`. It stands for `str.encode(self.encoding)` and is applied to layer names, attribute names and values. Only the header's own encoding name is always written as UTF-8 (`tbf/core/parsing.py:32`).
- A full-chunk value is written only when it is present and non-empty (`if obj_value:`, `tbf/core/parsing.py:122`). An empty string therefore writes the same bytes as a missing value.

## Model

| member | source | states |
|---|---|---|
| Bytes.IntToBytes | tbf/core/parsing.py:152-154 | for 0 <= n < 2^32 the result is exactly 4 bytes, and reading them back big-endian gives n |
| Bytes.BigEndianRoundTrip | tbf/core/parsing.py:152-154 | every 4-byte string reads as a 32-bit number whose encoding is that same string (the encoding is onto) |
| Bytes.IntToBytesInjective | tbf/core/parsing.py:152-154 | two numbers with the same 4-byte encoding are equal |
| Bytes.Utf8Char | tbf/core/parsing.py:32 | a character's UTF-8 form is 1 to 4 bytes; it contains 0x00 exactly for NUL; it is one byte exactly for ASCII |
| Bytes.Utf8NoZero | tbf/core/parsing.py:30-34 | an encoding name without NUL has no 0x00 byte in UTF-8, so the header's separator is its only zero |
| Bytes.Utf8Ascii | tbf/core/parsing.py:32 | an ASCII name encodes to its character codes, one byte each |
| Bytes.OrdToBytes | tbf/core/parsing.py:156-158 | `chr(flag).encode()` of a flag below 0x80 is the single byte flag |
| Assoc.Put | tbf/core/models.py:59-60 | `d[k] = v`: k then maps to v; every other key keeps its value; k is a key afterwards; an existing key keeps its position, a new key goes last; distinct keys stay distinct |
| Assoc.PutPut | tbf/core/parsing.py:99-102 | assigning a key twice leaves the second value in the first assignment's place |
| Models.LastIndex | tbf/core/models.py:8 | -1 exactly when the id is absent; otherwise the position of the id's last occurrence |
| Models.IndexById | tbf/core/models.py:8 | the dict comprehension's keys are exactly the listed ids; each id maps to the last listed layer with that id |
| Models.LayerObject.constructor | tbf/core/models.py:50-54 | the object holds the given id, layer id, children and attributes |
| Models.LayerObject.AddChild | tbf/core/models.py:56-57 | appends exactly one child link, the child's (layer, id); earlier children, layer and attributes are unchanged |
| Models.LayerObject.SetAttr | tbf/core/models.py:59-60 | the attributes become `Put(attrs, key, value)`; layer and children are unchanged |
| Models.Layer.constructor | tbf/core/models.py:33-36 | the layer holds the given id, name and objects |
| Models.Layer.AddObject | tbf/core/models.py:38-42 | stamps the layer's id on the object and appends the object last; its children and attributes are unchanged |
| Models.Layer.AddObjects | tbf/core/models.py:44-46 | the objects grow by exactly the given list, in order; every added object carries the layer's id and keeps its children and attributes |
| Models.Document.constructor | tbf/core/models.py:6-9 | the document holds the given layers and header; the index is `IndexById(layers)`, so every listed layer's id maps to a layer with that id |
| Models.Document.AddLayer | tbf/core/models.py:11-14 | appends the layer last; the index changes only at the layer's id, which now gives this layer; a consistent index stays consistent |
| Models.Document.AddLayers | tbf/core/models.py:16-18 | the layers grow by exactly the given list; the index gains `IndexById` of the list, so later ids win; a consistent index stays consistent |
| Models.Document.GetLayerById | tbf/core/models.py:23-24 | for a present id, in a consistent document, the result is a listed layer with that id: the last one listed |
| Models.Document.GetLayerByIdValue | tbf/core/models.py:23-24 | the contents of that layer are `LayerWithId` of the document's contents, which the format functions use |
| Models.Document.GetAllObjects | tbf/core/models.py:20-21 | the result has the sum of the layers' object counts; object j of layer i is at position j plus the object count of the layers before i |
| Models.ObjectsOfValues | tbf/core/models.py:20-21 | the contents of `get_all_objects()` are the contents of each layer's objects, concatenated in layer order |
| Tables.AddRelation | tbf/core/parsing.py:75-77 | `setdefault(..).setdefault(..).append(..)`: only the edge's group grows, by the (parent id, child id) pair at its end; both key sets grow by the edge's keys only; well-formedness and the group count (+1 exactly for a new group) are kept |
| Tables.AddRelationsSpec | tbf/core/parsing.py:68-81 | from an empty table, every group holds exactly the pairs of its layer pair in traversal order; groups and parent keys are exactly the layer pairs and parent layers that occur; the group count is the number of distinct layer pairs, at most the number of links |
| Tables.AddRelationsCount | tbf/core/parsing.py:79-81 | the number of relations counted is the number of distinct (parent layer, child layer) pairs |
| Tables.RelationsFitFromEdges | tbf/core/parsing.py:53-63 | when the number of links and every layer and object id fit in 4 bytes, every number the relations section writes does too |
| Tables.AddAttr | tbf/core/parsing.py:102 | `setdefault(key, {})[obj.id] = value`: only that (name, object) entry changes, to the value; the names grow by at most this one; well-formedness is kept |
| Tables.AddAttrsSpec | tbf/core/parsing.py:100-102 | from an empty table, each (name, object) holds the last value given for it; the names are exactly those that occur, once each |
| Tables.LayerAttrTableLookup | tbf/core/parsing.py:97-102 | for distinct object ids, the layer's table at (key, object id) is that object's attribute value, or none when the object lacks the key |
| Tables.AttrTableSpec | tbf/core/parsing.py:97-102 | every layer id gets an entry, attribute-less layers included, and no other key appears; each entry is the table of the last listed layer with that id |
| Tables.ChunkCountIsChunks | tbf/core/parsing.py:103 | for distinct layer ids, the chunk counter equals the number of (layer, name) chunks in the table |
| Tables.AttrTableFitsFromIds | tbf/core/parsing.py:86-94 | when layer and object ids fit in 4 bytes, every table key names a listed layer and every number a chunk writes fits |
| Format.HeaderSectionLayout | tbf/core/parsing.py:30-34 | the header is HEADER_START, the UTF-8 name, 0x00, HEADER_END; its length is the name's plus 3; no byte of the name is a separator |
| Format.LayerBlocksLength | tbf/core/parsing.py:43-49 | the layer blocks total 7 bytes plus the encoded name per layer |
| Format.LayersSectionLayout | tbf/core/parsing.py:36-49 | the layers section is 6 bytes plus the blocks, starts with LAYERS_START, and its count field reads back as the number of layers |
| Format.PairsBytesLength | tbf/core/parsing.py:61-63 | the pairs of a group take exactly 8 bytes each |
| Format.PairsBytesAt | tbf/core/parsing.py:61-63 | bytes 8i to 8i+8 of the pairs read back as pair i's parent id, then its child id |
| Format.RelationBlockLayout | tbf/core/parsing.py:56-64 | a relation block is 14 + 8·(pairs) bytes; its three header fields read back as the parent layer, child layer and number of pairs that follow |
| Format.RelationsSectionCount | tbf/core/parsing.py:51-53 | with the counter the relation pass computes, the count field after RELATIONS_START equals the number of relation blocks written |
| Format.ChoosesLinkedRule | tbf/core/parsing.py:105-111 | the linked layout is chosen exactly when 5·k < n, for k stored values and n layer objects |
| Format.LinkedEntriesLength | tbf/core/parsing.py:133-136 | the entries of a linked chunk are its overhead (5 bytes per value) plus the values' encoded bytes |
| Format.FullValuesLength | tbf/core/parsing.py:119-124 | the slots of a full chunk are its overhead (1 byte per object) plus the bytes of the values shown |
| Format.ShownBytesAll | tbf/core/parsing.py:119-124 | when every stored value belongs to a layer object and the codec writes "" as nothing, the full chunk shows exactly the stored values' bytes |
| Format.StoredValues | tbf/core/parsing.py:100-102 | each chunk of a layer's table has distinct object ids, all of them ids of that layer's objects |
| Format.ChunkChoiceShorter | tbf/core/parsing.py:88-111 | the two layouts differ in length by exactly the difference of their overheads; the linked one is chosen exactly when it is strictly shorter; the chunk written is never longer than either |
| Format.WrittenChunksShorter | tbf/core/parsing.py:86-94 | for every chunk the attribute pass produces, with distinct object ids per layer, the rule picks the strictly shorter layout |
| Format.AttrsSectionCount | tbf/core/parsing.py:83-86 | for distinct layer ids, the count field after ATTRS_START equals the number of chunks written |
| Format.SerializeLayout | tbf/core/parsing.py:21-28 | the document's bytes begin with HEADER_START and end with ATTRS_END; HEADER_END sits at byte |name|+2; the layers section starts right after it, the relations section after 6 bytes plus the layer blocks, the attributes section after 6 more bytes plus the relation blocks; each section starts with its start flag and ends with its end flag |
| Format.RelationBlocksLength | tbf/core/parsing.py:56-64 | the relation blocks total 14 bytes plus 8 per pair in each group |
| Writer.AddLinks | tbf/core/parsing.py:71-77 | adding one object's children, child by child, gives `AddRelations` of its links |
| Writer.AddAllLinks | tbf/core/parsing.py:69-77 | the relation loop over all objects gives `AddRelations` of all their links in traversal order |
| Writer.CountGroups | tbf/core/parsing.py:80-81 | the counting loop sums the number of child layers per parent layer: the table's group count |
| Writer.AddObjectAttrs | tbf/core/parsing.py:101-102 | adding one object's attributes, key by key, gives `AddAttrs` of its entries |
| Writer.FillLayerAttrs | tbf/core/parsing.py:100-102 | the loop over a layer's objects gives that layer's attribute table |
| Writer.FillAttrs | tbf/core/parsing.py:98-103 | the loop over the layers gives `AttrTableFrom` of the layers, and the counter sums each layer's number of names |
| Writer.Writer.constructor | tbf/core/parsing.py:11-19 | the writer keeps the document, the header's encoding and the stream; both tables are empty and both counters 0 |
| Writer.Writer.WriteFlag | tbf/core/parsing.py:143-144 | appends exactly the one byte flag; earlier bytes are unchanged |
| Writer.Writer.WriteSep | tbf/core/parsing.py:140-141 | appends exactly 0x00 |
| Writer.Writer.WriteInt | tbf/core/parsing.py:146-147 | appends exactly 4 bytes, which read back as the number |
| Writer.Writer.WriteString | tbf/core/parsing.py:149-150 | appends exactly the string's encoding |
| Writer.Writer.WriteHeader | tbf/core/parsing.py:30-34 | appends exactly the header section |
| Writer.Writer.WriteLayer | tbf/core/parsing.py:43-49 | appends exactly that layer's block |
| Writer.Writer.WriteLayers | tbf/core/parsing.py:36-41 | appends exactly the layers section |
| Writer.Writer.PrepareRelations | tbf/core/parsing.py:68-81 | the relation table becomes `AddRelations` of every object's links in traversal order, and the counter grows by the table's group count |
| Writer.Writer.WritePairs | tbf/core/parsing.py:61-63 | appends the pairs' ids, parent then child, 4 bytes each |
| Writer.Writer.WriteRelation | tbf/core/parsing.py:56-64 | appends exactly one relation block |
| Writer.Writer.WriteGroups | tbf/core/parsing.py:55-64 | appends one block per child layer of the parent layer, in table order |
| Writer.Writer.WriteRelations | tbf/core/parsing.py:51-66 | appends exactly the relations section of the table and counter |
| Writer.Writer.PrepareAttrs | tbf/core/parsing.py:97-103 | the attribute table becomes `AttrTableFrom` of the layers, and the counter grows by their number of (layer, name) entries |
| Writer.Writer.WriteFullChunk | tbf/core/parsing.py:113-125 | appends exactly the full chunk over the layer's objects, as found by id |
| Writer.Writer.WriteEntries | tbf/core/parsing.py:133-136 | appends (id, value, separator) per stored value, in table order |
| Writer.Writer.WriteLinkedChunk | tbf/core/parsing.py:127-138 | appends the linked chunk closed by CHUNK_END (the corrected last statement) |
| Writer.Writer.WriteChunk | tbf/core/parsing.py:88-94 | appends the chunk in the layout the overhead rule picks |
| Writer.Writer.WriteLayerChunks | tbf/core/parsing.py:87-94 | appends the chunks of one layer's names, in table order |
| Writer.Writer.WriteAttrs | tbf/core/parsing.py:83-95 | appends exactly the attributes section of the table and counter |
| Writer.Writer.WriteSections | tbf/core/parsing.py:25-28 | appends the header, layers, relations and attributes sections, in that order |
| Writer.Writer.Write | tbf/core/parsing.py:21-28 | on a fresh writer: the tables and counters end as the document's relation table, group count, attribute table and chunk count, and the stream gains exactly `Serialize` of the document |
| LinkedChunks.LinkedChunkAsWritten | tbf/core/parsing.py:127-138 | the linked chunk as written always raises, after writing the whole corrected chunk except its CHUNK_END |
| LinkedChunks.ChunkAsWritten | tbf/core/parsing.py:127-138 | one chunk as written raises exactly when it is linked; a full chunk writes the corrected bytes |
| LinkedChunks.FirstRaisedSpec | tbf/core/parsing.py:86-94 | the first raising run is found correctly: -1 exactly when none raises, else a raising run with none before it |
| LinkedChunks.StopSpec | tbf/core/parsing.py:86-94 | a loop that stops at the first raise either writes every piece or raises, with every earlier piece and the raising piece short of its CHUNK_END on the stream |
| LinkedChunks.ChunksAsWrittenSpec | tbf/core/parsing.py:86-94 | the attribute loops as written raise exactly when some chunk is linked; otherwise they write the corrected chunks; else a prefix of them missing at least a CHUNK_END |
| LinkedChunks.AttrsSectionAsWrittenSpec | tbf/core/parsing.py:83-95 | `_write_attrs` as written raises exactly when some chunk is linked; otherwise its bytes are the corrected section; else a proper prefix of it, at least two bytes short |
| LinkedChunks.SerializeAsWrittenSpec | tbf/core/parsing.py:21-28 | `write()` as written raises exactly when some chunk is linked; otherwise its bytes are `Serialize`; else a proper prefix of `Serialize`, at least two bytes short |
| LinkedChunks.SixTokensRaise | tbf/core/parsing.py:127-138 | one layer of six objects, the last with one attribute, fits and makes `write()` as written raise |
| Vectors.FlagAndSeparator | tests/core/test_parsing.py:215-231 | HEADER_START is written as 0x01 and the separator as 0x00 |
| Vectors.Int128 | tests/core/test_parsing.py:233-241 | 128 is written as 00 00 00 80 and reads back as 128 |
| Vectors.HeaderUtf8 | tests/core/test_parsing.py:371-378 | the header of a UTF-8 document is 01 'utf-8' 00 02 |
| Vectors.LayersOfTwo | tests/core/test_parsing.py:380-414 | the two-layer document of the test writes the test's layers section |
| Vectors.CrossedEdges | tests/core/test_parsing.py:426-447 | the test's document, four layer-0 objects each with one child in layer 1, yields links 0→1, 1→0, 2→3, 3→2 in traversal order |
| Vectors.CrossedDocTable | tests/core/test_parsing.py:416-450 | `_prepare_relations_for_writing` on the test's document builds one group, layers 0→1, with the four pairs in that order |
| Vectors.RelationsOfCrossedPairs | tests/core/test_parsing.py:453-468 | that relation table with count 1 writes the test's relations section |
| Vectors.CrossedDocRelations | tests/core/test_parsing.py:416-468 | `_prepare_relations_for_writing()` then `_write_relations()` on the test's document writes exactly the test's bytes |
| Vectors.AttrDocTable | tests/core/test_parsing.py:470-496 | `_prepare_attrs_for_writing` on the test's document builds a table for layer 0 with one name and for layer 1 with two, and counts 3 chunks |
| Vectors.AttrDocChunks | tests/core/test_parsing.py:498-515 | each of the three chunks is full, and is the test's bytes: `key1` with its value, `key3` with its value then an empty slot, `key4` with an empty slot then its value |
| Vectors.AttrDocSection | tests/core/test_parsing.py:470-516 | `_prepare_attrs_for_writing()` then `_write_attrs()` on the test's document, for any names and non-empty values, writes ATTRS_START, the count 3, the three chunks and ATTRS_END |
| Vectors.AttrTestSection | tests/core/test_parsing.py:470-516 | the same with the test's own names and values in ASCII: the test's chunk count, its three chunks, and ATTRS_END as the last byte |

## Left out

- The output stream (`io.BytesIO`) is the `output` field, a byte sequence the writer only appends to.
- The text codec behind `str.encode(self.encoding)` is a function parameter. Codec lookup and `UnicodeEncodeError` are not modelled.
- Writer.Writer.Write: requires every written number to fit in 4 bytes. The source raises OverflowError otherwise, and that path is not modelled. For simplicity the requirement covers every layer id and object id and the number of links, even where a value is not written: `Tables.IdsFit` asks it of every listed layer's id, including a layer whose id no section writes.
- Writer.Writer.Write: follows the corrected `_write_linked_chunk`, which closes a linked chunk with CHUNK_END. The source as written raises at that statement instead; its behaviour, a proper prefix of `Serialize` followed by AttributeError whenever some chunk is linked, is `LinkedChunks.SerializeAsWrittenSpec`.
- Writer.Writer.WriteFlag: requires flag < 0x80. `chr(flag).encode()` writes two bytes for larger flags, and every flag the writer uses is below 0x10.
- Writer.Writer.constructor: requires a header. The source fails with AttributeError on a document without one.
- Writer.Writer.Write: starts from a fresh writer. A second `write()` would accumulate into the tables, as the source's `+=` and `append` do; that path is not modelled.
- Writer.Writer.Write: takes the document's contents once, as a value, and every pass reads that value. This presumes the passes do not change the document, which they do not. `get_layer_by_id` inside the attribute pass becomes `LayerWithId` on that value; `Models.Document.GetLayerByIdValue` proves the two agree.
- The preparation loops are separate methods (`Writer.AddLinks` … `Writer.FillAttrs`) on table values. The writer assigns their results to its fields.
- Format.AttrsSectionCount and Tables.ChunkCountIsChunks: require distinct layer ids. With a repeated layer id, `_prepare_attrs_for_writing` resets the table entry but still adds that layer's names to the counter. The count can then exceed the chunks written, namely when the earlier layer with the repeated id had attributes; that case is not modelled beyond the counter's definition.
- Format.ChunkChoiceShorter: requires the codec to write "" as no bytes, since an empty value is shown as nothing in a full chunk but still written in a linked one.
- Format.ChunkChoiceShorter: the strictly-shorter statement is about the linked layout the writer produces, which has no entry count. The parser's own test of a linked chunk (tests/core/test_parsing.py:175-190) puts a 4-byte number of entries after the name; with that count a linked chunk would be 4 bytes longer, and the writer's overhead rule does not account for it.
- Models.LayerObject.SetAttr: states its effect as `Put` on the dictionary. `Assoc.Put` carries the per-key statement.
- Models.LayerObject.AddChild: records the child's (layer, id) at the time of the call. Later changes to the child object are not seen. The writer reads only these two fields of a child.
- Aliasing between objects of different layers, or an object in two layers, is not modelled beyond what `Value()` snapshots show.
- Vectors.LayersOfTwo and Vectors.AttrTestSection: require the codec to write the test's ASCII names and values as their character codes, which UTF-8 does.
- CHUNK_LINKED_START is 0x0C. tbf/core/constants.py is not part of this model; nothing depends on the value beyond its being one byte distinct from the others.
- The `isinstance` assertions are types. `Header`'s default encoding is not modelled: a header always names its encoding.
- The parser, the front-end functions `write_to_string`, `write_to_bytes`, `parse_from_string` and `parse_from_bytes`, the `tbf.cli` entry point and `setup.py` are not part of this model. No write/parse round trip is claimed.
- Python's dict iteration order is insertion order, modelled by association lists. The attribute test checks chunks in any order; the model fixes that order.

## Findings

| source | as written | input that shows it | evidently intended | confidence | as-written member | corrected member |
|---|---|---|---|---|---|---|
| tbf/core/parsing.py:138 | `_write_linked_chunk` ends with `self._write(CHUNK_END)`, and `_Writer` has no `_write` method, so it raises AttributeError after the chunk's entries are written and `write()` stops before ATTRS_END | one layer with six objects whose last object has one attribute: 5·1 < 6 picks the linked layout | `self._write_flag(CHUNK_END)`, closing the chunk as `_write_full_chunk` does. Which linked layout is meant is not settled: the parser's test (tests/core/test_parsing.py:182) also expects a 4-byte number of entries after the name, which the writer never writes; the corrected member keeps the writer's count-free layout | not executed | LinkedChunks.SixTokensRaise | Writer.Writer.WriteLinkedChunk |

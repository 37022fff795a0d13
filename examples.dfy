/**
 * The byte strings tests/core/test_parsing.py expects from the writer's
 * passes, restated for the model: every one follows from the section
 * functions of module Format.
 */
module Vectors {
  import opened Assoc
  import opened Bytes
  import opened Models
  import opened Tables
  import opened Format
  import opened LinkedChunks

  /** `_write_flag(HEADER_START)` and `_write_sep()`: one byte each. */
  lemma FlagAndSeparator()
    ensures OrdToBytes(HEADER_START) == [0x01]
    ensures OrdToBytes(SEPARATOR) == [0x00]
  {
  }

  /** `_write_int(128)`: four big-endian bytes. */
  lemma Int128()
    ensures IntToBytes(128) == [0x00, 0x00, 0x00, 0x80]
    ensures BigEndian([0x00, 0x00, 0x00, 0x80]) == 128
  {
  }

  /** `_write_header()` for a UTF-8 document: `b'\x01utf-8\x00\x02'`. */
  lemma HeaderUtf8()
    ensures HeaderSection("utf-8") == [0x01, 0x75, 0x74, 0x66, 0x2D, 0x38, 0x00, 0x02]
  {
    var s := "utf-8";
    Utf8Ascii(s);
    assert Utf8(s) == [0x75, 0x74, 0x66, 0x2D, 0x38];
  }

  lemma SmallInts()
    ensures IntToBytes(0) == [0, 0, 0, 0] && IntToBytes(1) == [0, 0, 0, 1]
    ensures IntToBytes(2) == [0, 0, 0, 2] && IntToBytes(3) == [0, 0, 0, 3] && IntToBytes(4) == [0, 0, 0, 4]
  {
  }

  /** Two layers of four objects each, as the layer test builds them. */
  function TwoLayers(): seq<LayerValue>
  {
    [LayerValue(0, "Layer 1", seq(4, j => ObjectValue(j, 0, [], []))),
     LayerValue(1, "Layer 2", seq(4, j => ObjectValue(j, 1, [], [])))]
  }

  /** `_write_layers()` on those layers, for a codec that writes the names as ASCII. */
  lemma LayersOfTwo(codec: Codec)
    requires codec("Layer 1") == [0x4C, 0x61, 0x79, 0x65, 0x72, 0x20, 0x31]
    requires codec("Layer 2") == [0x4C, 0x61, 0x79, 0x65, 0x72, 0x20, 0x32]
    ensures LayersFit(TwoLayers())
    ensures LayersSection(TwoLayers(), codec) ==
      [0x03] + [0, 0, 0, 2]
      + ([0x09] + [0x4C, 0x61, 0x79, 0x65, 0x72, 0x20, 0x31] + [0x00] + [0, 0, 0, 4] + [0x0A])
      + ([0x09] + [0x4C, 0x61, 0x79, 0x65, 0x72, 0x20, 0x32] + [0x00] + [0, 0, 0, 4] + [0x0A])
      + [0x04]
  {
    var ls := TwoLayers();
    SmallInts();
    assert ls[1..][1..] == [];
    assert LayerBlocks(ls, codec) == LayerBlock(ls[0], codec) + LayerBlock(ls[1], codec);
  }

  /** The one relation group of the relation test: layer 0 to layer 1, four pairs. */
  function CrossedPairs(): RelationTable
  {
    [(0, [(1, [(0, 1), (1, 0), (2, 3), (3, 2)])])]
  }

  lemma CrossedPairBytes()
    ensures PairsFit([(0, 1), (1, 0), (2, 3), (3, 2)])
    ensures PairsBytes([(0, 1), (1, 0), (2, 3), (3, 2)]) ==
      [0, 0, 0, 0, 0, 0, 0, 1, 0, 0, 0, 1, 0, 0, 0, 0, 0, 0, 0, 2, 0, 0, 0, 3, 0, 0, 0, 3, 0, 0, 0, 2]
  {
    var ps: Pairs := [(0, 1), (1, 0), (2, 3), (3, 2)];
    SmallInts();
    assert ps[1..][1..][1..][1..] == [];
  }

  /** `_write_relations()` on that table. */
  lemma RelationsOfCrossedPairs()
    ensures RelationsFit(CrossedPairs())
    ensures RelationsSection(CrossedPairs(), 1) ==
      [0x07] + [0, 0, 0, 1]
      + ([0x0E] + [0, 0, 0, 0] + [0, 0, 0, 1] + [0, 0, 0, 4]
        + [0, 0, 0, 0, 0, 0, 0, 1, 0, 0, 0, 1, 0, 0, 0, 0, 0, 0, 0, 2, 0, 0, 0, 3, 0, 0, 0, 3, 0, 0, 0, 2]
        + [0x0F])
      + [0x08]
  {
    var t := CrossedPairs();
    var g: Group := (0, 1, [(0, 1), (1, 0), (2, 3), (3, 2)]);
    SmallInts();
    CrossedPairBytes();
    assert t[..0] == [] && t[0].1[..0] == [];
    assert Flatten(t) == [g];
    assert [g][1..] == [];
    assert RelationBlocks(Flatten(t)) == RelationBlock(g);
    assert |g.2| == 4;
    assert RelationBlock(g) == [0x0E] + [0, 0, 0, 0] + [0, 0, 0, 1] + [0, 0, 0, 4]
      + [0, 0, 0, 0, 0, 0, 0, 1, 0, 0, 0, 1, 0, 0, 0, 0, 0, 0, 0, 2, 0, 0, 0, 3, 0, 0, 0, 3, 0, 0, 0, 2] + [0x0F];
  }

  /** A layer-0 object of the relation test, with its one child in layer 1. */
  function Parent(id: int, child: int): ObjectValue
  {
    ObjectValue(id, 0, [ChildRef(1, child)], [])
  }

  /**
   * The relation test's document: objects 0, 1, 2, 3 of layer 0 have the
   * children 1, 0, 3, 2 of layer 1.  The layer names play no part.
   */
  function CrossedDoc(name1: string, name2: string): seq<LayerValue>
  {
    [LayerValue(0, name1, [Parent(0, 1), Parent(1, 0), Parent(2, 3), Parent(3, 2)]),
     LayerValue(1, name2, seq(4, j => ObjectValue(j, 1, [], [])))]
  }

  lemma {:induction false} EdgesAppend(a: seq<ObjectValue>, b: seq<ObjectValue>)
    ensures Edges(a + b) == Edges(a) + Edges(b)
    decreases |b|
  {
    if b == [] {
      assert a + b == a;
    } else {
      assert (a + b)[..|a + b| - 1] == a + b[..|b| - 1];
      EdgesAppend(a, b[..|b| - 1]);
    }
  }

  lemma ParentEdges(id: int, child: int)
    ensures ObjectEdges(Parent(id, child)) == [Edge(0, 1, id, child)]
  {
  }

  lemma {:induction false} BareEdges(objs: seq<ObjectValue>)
    requires forall i :: 0 <= i < |objs| ==> objs[i].children == []
    ensures Edges(objs) == []
  {
    if objs != [] {
      BareEdges(objs[..|objs| - 1]);
    }
  }

  /** `_prepare_relations_for_writing` visits the four links in object order. */
  lemma CrossedEdges(name1: string, name2: string)
    ensures Edges(AllObjects(CrossedDoc(name1, name2))) ==
      [Edge(0, 1, 0, 1), Edge(0, 1, 1, 0), Edge(0, 1, 2, 3), Edge(0, 1, 3, 2)]
  {
    var ls := CrossedDoc(name1, name2);
    var ps := ls[0].objects;
    assert ls[..1][..0] == [] && ls[..1] == [ls[0]];
    assert AllObjects(ls[..1]) == ps;
    assert AllObjects(ls) == ps + ls[1].objects;
    EdgesAppend(ps, ls[1].objects);
    BareEdges(ls[1].objects);
    ParentEdges(0, 1);
    ParentEdges(1, 0);
    ParentEdges(2, 3);
    ParentEdges(3, 2);
    assert ps == [Parent(0, 1)] + [Parent(1, 0)] + [Parent(2, 3)] + [Parent(3, 2)];
    EdgesAppend([Parent(0, 1)] + [Parent(1, 0)] + [Parent(2, 3)], [Parent(3, 2)]);
    EdgesAppend([Parent(0, 1)] + [Parent(1, 0)], [Parent(2, 3)]);
    EdgesAppend([Parent(0, 1)], [Parent(1, 0)]);
    assert [Parent(0, 1)][..0] == [];
  }

  /** The first link creates the group of layer 0 to layer 1. */
  lemma FirstRelation(i: int, c: int)
    ensures AddRelation([], Edge(0, 1, i, c)) == [(0, [(1, [(i, c)])])]
  {
    var e := Edge(0, 1, i, c);
    var v: Pairs := [(i, c)];
    assert GroupOf([], 0, 1) == [] && [] + v == v;
    assert Grown([], e) == PutIn([], 0, 1, v);
    assert GetOr<int, Dict<int, Pairs>>([], 0, []) == [];
    assert !HasKey<int, Pairs>([], 1) && !HasKey<int, Dict<int, Pairs>>([], 0);
    assert Put<int, Pairs>([], 1, v) == [(1, v)];
    assert Put<int, Dict<int, Pairs>>([], 0, [(1, v)]) == [(0, [(1, v)])];
  }

  /** A later link of the same layers appends its pair to that group. */
  lemma NextRelation(ps: Pairs, i: int, c: int)
    ensures AddRelation([(0, [(1, ps)])], Edge(0, 1, i, c)) == [(0, [(1, ps + [(i, c)])])]
  {
    var t: RelationTable := [(0, [(1, ps)])];
    var inner: Dict<int, Pairs> := [(1, ps)];
    assert t[0].0 == 0 && inner[0].0 == 1;
    assert Find(t, 0) == 0 && Find(inner, 1) == 0;
    assert GetOr(t, 0, []) == inner;
    assert GroupOf(t, 0, 1) == ps;
    assert Put(inner, 1, ps + [(i, c)]) == [(1, ps + [(i, c)])];
  }

  lemma CrossedLists()
    ensures [] + [Edge(0, 1, 0, 1)] == [Edge(0, 1, 0, 1)]
    ensures [Edge(0, 1, 0, 1)] + [Edge(0, 1, 1, 0)] + [Edge(0, 1, 2, 3)] + [Edge(0, 1, 3, 2)] ==
      [Edge(0, 1, 0, 1), Edge(0, 1, 1, 0), Edge(0, 1, 2, 3), Edge(0, 1, 3, 2)]
    ensures [(0, 1)] + [(1, 0)] + [(2, 3)] + [(3, 2)] == [(0, 1), (1, 0), (2, 3), (3, 2)]
  {
  }

  /** One more link of layer 0 to layer 1, after links that built only that group. */
  lemma RelationsStep(es: seq<Edge>, ps: Pairs, i: int, c: int)
    requires AddRelations([], es) == [(0, [(1, ps)])]
    ensures AddRelations([], es + [Edge(0, 1, i, c)]) == [(0, [(1, ps + [(i, c)])])]
  {
    AddRelationsNext([], es, Edge(0, 1, i, c));
    NextRelation(ps, i, c);
  }

  /** The relation table `write` builds for the test's document is the one the test's bytes show. */
  lemma CrossedDocTable(name1: string, name2: string)
    ensures RelationsOf(CrossedDoc(name1, name2)) == CrossedPairs()
  {
    var e0, e1, e2, e3 := Edge(0, 1, 0, 1), Edge(0, 1, 1, 0), Edge(0, 1, 2, 3), Edge(0, 1, 3, 2);
    CrossedEdges(name1, name2);
    AddRelationsNext([], [], e0);
    FirstRelation(0, 1);
    CrossedLists();
    RelationsStep([e0], [(0, 1)], 1, 0);
    RelationsStep([e0] + [e1], [(0, 1)] + [(1, 0)], 2, 3);
    RelationsStep([e0] + [e1] + [e2], [(0, 1)] + [(1, 0)] + [(2, 3)], 3, 2);
  }

  /** `_prepare_relations_for_writing()` then `_write_relations()` on the test's document: the test's bytes. */
  lemma CrossedDocRelations(name1: string, name2: string)
    ensures RelationsFit(RelationsOf(CrossedDoc(name1, name2)))
    ensures RelationsSection(RelationsOf(CrossedDoc(name1, name2)), TotalSize(RelationsOf(CrossedDoc(name1, name2)))) ==
      [0x07] + [0, 0, 0, 1]
      + ([0x0E] + [0, 0, 0, 0] + [0, 0, 0, 1] + [0, 0, 0, 4]
        + [0, 0, 0, 0, 0, 0, 0, 1, 0, 0, 0, 1, 0, 0, 0, 0, 0, 0, 0, 2, 0, 0, 0, 3, 0, 0, 0, 3, 0, 0, 0, 2]
        + [0x0F])
      + [0x08]
  {
    CrossedDocTable(name1, name2);
    RelationsOfCrossedPairs();
    assert CrossedPairs()[..0] == [];
    assert TotalSize(CrossedPairs()) == 1;
  }

  /**
   * The attribute test's document: layer 0 holds one object with one
   * attribute, layer 1 two objects with one attribute each.  The names and
   * values are parameters; the two names of layer 1 differ.
   */
  function AttrDoc(k1: string, v1: string, k3: string, v3: string, k4: string, v4: string): seq<LayerValue>
  {
    [LayerValue(0, "Layer 1", [ObjectValue(0, 0, [], [(k1, v1)])]),
     LayerValue(1, "Layer 2", [ObjectValue(0, 1, [], [(k3, v3)]), ObjectValue(1, 1, [], [(k4, v4)])])]
  }

  /** Two one-element lists joined. */
  lemma Joined<T>(x: T, y: T)
    ensures [x] + [y] == [x, y]
  {
  }

  /** A one-element list joined to a two-element one. */
  lemma JoinedThree<T>(x: T, y: T, z: T)
    ensures [x] + [y, z] == [x, y, z]
  {
  }

  /** A name not yet in a layer's table is appended with its one value. */
  lemma NewName(t: LayerAttrs, e: AttrEntry)
    requires !HasKey(t, e.key)
    ensures AddAttr(t, e) == t + [(e.key, [(e.objId, e.value)])]
  {
    assert GetOr(t, e.key, []) == [];
    assert !HasKey<int, string>([], e.objId);
    assert Put<int, string>([], e.objId, e.value) == [(e.objId, e.value)];
  }

  /** Layer 1's table: the second name is added after the first. */
  lemma {:induction false} TwoAttrs(k3: string, v3: string, k4: string, v4: string)
    requires k3 != k4
    ensures AddAttrs([], [AttrEntry(0, k3, v3), AttrEntry(1, k4, v4)]) == [(k3, [(0, v3)]), (k4, [(1, v4)])]
  {
    var a, b := AttrEntry(0, k3, v3), AttrEntry(1, k4, v4);
    var t: LayerAttrs := [(k3, [(0, v3)])];
    var u: LayerAttrs := [(k4, [(1, v4)])];
    assert [a, b] == [a] + [b];
    AddAttrsNext([], [a], b);
    OneAttr(k3, 0, v3);
    assert !HasKey(t, k4);
    NewName(t, b);
    Joined(t[0], u[0]);
  }

  lemma OneObjectEntries(o: ObjectValue, k: string, v: string)
    requires o.attrs == [(k, v)]
    ensures AttrEntries([o]) == [AttrEntry(o.id, k, v)]
  {
    assert [o][..0] == [];
    assert ObjectAttrs(o) == [AttrEntry(o.id, k, v)];
  }

  lemma LayerZeroTable(k1: string, v1: string)
    ensures LayerAttrTable([ObjectValue(0, 0, [], [(k1, v1)])]) == [(k1, [(0, v1)])]
  {
    OneObjectEntries(ObjectValue(0, 0, [], [(k1, v1)]), k1, v1);
    OneAttr(k1, 0, v1);
  }

  lemma LayerOneTable(k3: string, v3: string, k4: string, v4: string)
    requires k3 != k4
    ensures LayerAttrTable([ObjectValue(0, 1, [], [(k3, v3)]), ObjectValue(1, 1, [], [(k4, v4)])]) ==
      [(k3, [(0, v3)]), (k4, [(1, v4)])]
  {
    var o0, o1 := ObjectValue(0, 1, [], [(k3, v3)]), ObjectValue(1, 1, [], [(k4, v4)]);
    var objs := [o0, o1];
    assert objs[..1] == [o0];
    OneObjectEntries(o0, k3, v3);
    assert ObjectAttrs(o1) == [AttrEntry(1, k4, v4)];
    assert AttrEntries(objs) == [AttrEntry(0, k3, v3)] + [AttrEntry(1, k4, v4)];
    assert [AttrEntry(0, k3, v3)] + [AttrEntry(1, k4, v4)] == [AttrEntry(0, k3, v3), AttrEntry(1, k4, v4)];
    TwoAttrs(k3, v3, k4, v4);
  }

  /** The attribute table of a document's first layer alone: one entry, under that layer's id. */
  lemma {:induction false} FirstLayerAttrs(ls: seq<LayerValue>)
    requires |ls| >= 1
    ensures AttrTableFrom([], ls[..1]) == [(ls[0].id, LayerAttrTable(ls[0].objects))]
    ensures ChunkCount(ls[..1]) == |LayerAttrTable(ls[0].objects)|
  {
    assert ls[..1][..0] == [];
    AttrTableFromNext([], ls, 0);
    assert !HasKey<int, LayerAttrs>([], ls[0].id);
  }

  /** The attribute table of two layers with the ids 0 and 1: one entry per layer, in order. */
  lemma TwoLayerAttrs(l0: LayerValue, l1: LayerValue)
    requires l0.id == 0 && l1.id == 1
    ensures AttrsOf([l0, l1]) == [(0, LayerAttrTable(l0.objects)), (1, LayerAttrTable(l1.objects))]
    ensures ChunkCount([l0, l1]) == |LayerAttrTable(l0.objects)| + |LayerAttrTable(l1.objects)|
  {
    var ls := [l0, l1];
    var t1 := LayerAttrTable(l1.objects);
    assert ls[..2] == ls;
    FirstLayerAttrs(ls);
    AttrTableFromNext([], ls, 1);
    var a0 := AttrTableFrom([], ls[..1]);
    assert !HasKey<int, LayerAttrs>(a0, 1);
    assert Put(a0, 1, t1) == a0 + [(1, t1)];
  }

  /** `_prepare_attrs_for_writing` on the test's document: one table per layer, three names in all. */
  lemma AttrDocTable(k1: string, v1: string, k3: string, v3: string, k4: string, v4: string)
    requires k3 != k4
    ensures AttrsOf(AttrDoc(k1, v1, k3, v3, k4, v4)) ==
      [(0, [(k1, [(0, v1)])]), (1, [(k3, [(0, v3)]), (k4, [(1, v4)])])]
    ensures ChunkCount(AttrDoc(k1, v1, k3, v3, k4, v4)) == 3
  {
    var ls := AttrDoc(k1, v1, k3, v3, k4, v4);
    LayerZeroTable(k1, v1);
    LayerOneTable(k3, v3, k4, v4);
    TwoLayerAttrs(ls[0], ls[1]);
    assert ls == [ls[0], ls[1]];
  }

  /** The three chunk rows, layer by layer: layer 0's name, then layer 1's two. */
  /** `Flatten` of a two-entry table: the first entry's row, then the second's. */
  lemma {:induction false} FlattenTwo<K, K2, V>(t: Dict<K, Dict<K2, V>>)
    requires |t| == 2
    ensures Flatten(t) == Row(t[0].0, t[0].1) + Row(t[1].0, t[1].1)
  {
    assert t[..1][..0] == [];
    assert Flatten(t[..1]) == [] + Row(t[0].0, t[0].1);
    assert [] + Row(t[0].0, t[0].1) == Row(t[0].0, t[0].1);
  }

  /** The row of a one-entry and of a two-entry inner table. */
  lemma Rows<K, K2, V>(k: K, x: (K2, V), y: (K2, V))
    ensures Row(k, [x]) == [(k, x.0, x.1)]
    ensures Row(k, [x, y]) == [(k, x.0, x.1), (k, y.0, y.1)]
  {
  }

  lemma {:induction false} AttrDocRows(k1: string, v1: string, k3: string, v3: string, k4: string, v4: string)
    requires k3 != k4
    ensures Flatten(AttrsOf(AttrDoc(k1, v1, k3, v3, k4, v4))) ==
      [(0, k1, [(0, v1)]), (1, k3, [(0, v3)]), (1, k4, [(1, v4)])]
  {
    AttrDocTable(k1, v1, k3, v3, k4, v4);
    var t: AttrTable := [(0, [(k1, [(0, v1)])]), (1, [(k3, [(0, v3)]), (k4, [(1, v4)])])];
    FlattenTwo(t);
    Rows<int, string, AttrValues>(0, (k1, [(0, v1)]), (k1, [(0, v1)]));
    Rows<int, string, AttrValues>(1, (k3, [(0, v3)]), (k4, [(1, v4)]));
    JoinedThree<ChunkRow>((0, k1, [(0, v1)]), (1, k3, [(0, v3)]), (1, k4, [(1, v4)]));
  }

  /** A full chunk's values for a layer of the objects 0 and 1. */
  lemma FullValuesTwo(vals: AttrValues, codec: Codec)
    ensures FullValues([0, 1], vals, codec) ==
      Shown(Get(vals, 0), codec) + [0x00] + Shown(Get(vals, 1), codec) + [0x00]
  {
    var ids := [0, 1];
    var a, b := Shown(Get(vals, 0), codec), Shown(Get(vals, 1), codec);
    assert ids[..1] == [0] && ids[..1][..0] == [];
    assert FullValues([0], vals, codec) == [] + a + [0x00];
    assert [] + a + [0x00] == a + [0x00];
    assert FullValues(ids, vals, codec) == FullValues([0], vals, codec) + b + [0x00];
  }

  /** In two layers with the ids 0 and 1, `get_layer_by_id` finds each by its id. */
  lemma TwoLayerLookup(l0: LayerValue, l1: LayerValue)
    requires l0.id == 0 && l1.id == 1
    ensures LayerIds([l0, l1]) == [0, 1]
    ensures LayerWithId([l0, l1], 0) == l0 && LayerWithId([l0, l1], 1) == l1
  {
    var ids := LayerIds([l0, l1]);
    assert ids == [0, 1];
    assert ids[..1] == [0];
    assert LastIndex(ids, 0) == LastIndex([0], 0) == 0;
  }

  /** The `key1` chunk: full, since one value among one object is no cheaper linked. */
  lemma ChunkKey1(k1: string, v1: string, k3: string, v3: string, k4: string, v4: string, codec: Codec)
    requires v1 != ""
    ensures ChunkFits(AttrDoc(k1, v1, k3, v3, k4, v4), (0, k1, [(0, v1)]))
    ensures !IsLinked(AttrDoc(k1, v1, k3, v3, k4, v4), (0, k1, [(0, v1)]))
    ensures Chunk(AttrDoc(k1, v1, k3, v3, k4, v4), (0, k1, [(0, v1)]), codec) ==
      [0x0B] + [0, 0, 0, 0] + codec(k1) + [0x00] + codec(v1) + [0x00] + [0x0D]
  {
    var ls := AttrDoc(k1, v1, k3, v3, k4, v4);
    TwoLayerLookup(ls[0], ls[1]);
    assert ls == [ls[0], ls[1]];
    SmallInts();
    var ids := ObjIds(ls[0].objects);
    assert ids == [0] && ids[..0] == [];
    assert FullValues(ids, [(0, v1)], codec) == [] + codec(v1) + [0x00];
    assert [] + codec(v1) + [0x00] == codec(v1) + [0x00];
  }

  /** The `key3` chunk: full, the value under object 0, nothing under object 1. */
  lemma ChunkKey3(k1: string, v1: string, k3: string, v3: string, k4: string, v4: string, codec: Codec)
    requires v3 != ""
    ensures ChunkFits(AttrDoc(k1, v1, k3, v3, k4, v4), (1, k3, [(0, v3)]))
    ensures !IsLinked(AttrDoc(k1, v1, k3, v3, k4, v4), (1, k3, [(0, v3)]))
    ensures Chunk(AttrDoc(k1, v1, k3, v3, k4, v4), (1, k3, [(0, v3)]), codec) ==
      [0x0B] + [0, 0, 0, 1] + codec(k3) + [0x00] + codec(v3) + [0x00] + [0x00] + [0x0D]
  {
    var ls := AttrDoc(k1, v1, k3, v3, k4, v4);
    TwoLayerLookup(ls[0], ls[1]);
    assert ls == [ls[0], ls[1]];
    SmallInts();
    assert ObjIds(ls[1].objects) == [0, 1];
    FullValuesTwo([(0, v3)], codec);
    assert Get<int, string>([(0, v3)], 1) == None;
  }

  /** The `key4` chunk: full, nothing under object 0, the value under object 1. */
  lemma ChunkKey4(k1: string, v1: string, k3: string, v3: string, k4: string, v4: string, codec: Codec)
    requires v4 != ""
    ensures ChunkFits(AttrDoc(k1, v1, k3, v3, k4, v4), (1, k4, [(1, v4)]))
    ensures !IsLinked(AttrDoc(k1, v1, k3, v3, k4, v4), (1, k4, [(1, v4)]))
    ensures Chunk(AttrDoc(k1, v1, k3, v3, k4, v4), (1, k4, [(1, v4)]), codec) ==
      [0x0B] + [0, 0, 0, 1] + codec(k4) + [0x00] + [0x00] + codec(v4) + [0x00] + [0x0D]
  {
    var ls := AttrDoc(k1, v1, k3, v3, k4, v4);
    TwoLayerLookup(ls[0], ls[1]);
    assert ls == [ls[0], ls[1]];
    SmallInts();
    assert ObjIds(ls[1].objects) == [0, 1];
    FullValuesTwo([(1, v4)], codec);
    assert Get<int, string>([(1, v4)], 0) == None;
  }

  /** Three chunks in a row: each one's bytes, in order. */
  lemma {:induction false} ChunksThree(ls: seq<LayerValue>, a: ChunkRow, b: ChunkRow, c: ChunkRow, codec: Codec)
    requires ChunkFits(ls, a) && ChunkFits(ls, b) && ChunkFits(ls, c)
    ensures AllChunksFit(ls, [a, b, c])
    ensures Chunks(ls, [a, b, c], codec) == Chunk(ls, a, codec) + Chunk(ls, b, codec) + Chunk(ls, c, codec)
  {
    var cs := [a, b, c];
    assert cs[..2] == [a, b] && cs[..2][..1] == [a] && cs[..2][..1][..0] == [];
    assert AllChunksFit(ls, cs);
    assert Chunks(ls, [a], codec) == [] + Chunk(ls, a, codec);
    assert [] + Chunk(ls, a, codec) == Chunk(ls, a, codec);
    assert Chunks(ls, [a, b], codec) == Chunk(ls, a, codec) + Chunk(ls, b, codec);
  }

  /** Every chunk of the test is full, and each is the test's bytes. */
  lemma AttrDocChunks(k1: string, v1: string, k3: string, v3: string, k4: string, v4: string, codec: Codec)
    requires v1 != "" && v3 != "" && v4 != ""
    ensures AllChunksFit(AttrDoc(k1, v1, k3, v3, k4, v4), [(0, k1, [(0, v1)]), (1, k3, [(0, v3)]), (1, k4, [(1, v4)])])
    ensures Chunks(AttrDoc(k1, v1, k3, v3, k4, v4), [(0, k1, [(0, v1)]), (1, k3, [(0, v3)]), (1, k4, [(1, v4)])], codec) ==
      ([0x0B] + [0, 0, 0, 0] + codec(k1) + [0x00] + codec(v1) + [0x00] + [0x0D])
      + ([0x0B] + [0, 0, 0, 1] + codec(k3) + [0x00] + codec(v3) + [0x00] + [0x00] + [0x0D])
      + ([0x0B] + [0, 0, 0, 1] + codec(k4) + [0x00] + [0x00] + codec(v4) + [0x00] + [0x0D])
  {
    ChunkKey1(k1, v1, k3, v3, k4, v4, codec);
    ChunkKey3(k1, v1, k3, v3, k4, v4, codec);
    ChunkKey4(k1, v1, k3, v3, k4, v4, codec);
    ChunksThree(AttrDoc(k1, v1, k3, v3, k4, v4), (0, k1, [(0, v1)]), (1, k3, [(0, v3)]), (1, k4, [(1, v4)]), codec);
  }

  /** An attribute section of three chunks whose bytes are known. */
  lemma ThreeChunkSection(ls: seq<LayerValue>, t: AttrTable, rows: seq<ChunkRow>, body: seq<byte>, codec: Codec)
    requires AttrTableFits(t, ls) && Flatten(t) == rows && AllChunksFit(ls, rows) && Chunks(ls, rows, codec) == body
    ensures AttrsSection(ls, t, 3, codec) == [0x05] + [0, 0, 0, 3] + body + [0x06]
  {
    SmallInts();
  }

  /**
   * `_prepare_attrs_for_writing()` then `_write_attrs()` on the attribute
   * test's document: the chunk count 3, the three full chunks of the test,
   * and ATTRS_END.
   */
  lemma AttrDocSection(k1: string, v1: string, k3: string, v3: string, k4: string, v4: string, codec: Codec)
    requires k3 != k4 && v1 != "" && v3 != "" && v4 != ""
    ensures AttrTableFits(AttrsOf(AttrDoc(k1, v1, k3, v3, k4, v4)), AttrDoc(k1, v1, k3, v3, k4, v4))
    ensures AttrsSection(AttrDoc(k1, v1, k3, v3, k4, v4), AttrsOf(AttrDoc(k1, v1, k3, v3, k4, v4)), 3, codec) ==
      [0x05] + [0, 0, 0, 3]
      + (([0x0B] + [0, 0, 0, 0] + codec(k1) + [0x00] + codec(v1) + [0x00] + [0x0D])
         + ([0x0B] + [0, 0, 0, 1] + codec(k3) + [0x00] + codec(v3) + [0x00] + [0x00] + [0x0D])
         + ([0x0B] + [0, 0, 0, 1] + codec(k4) + [0x00] + [0x00] + codec(v4) + [0x00] + [0x0D]))
      + [0x06]
  {
    var ls := AttrDoc(k1, v1, k3, v3, k4, v4);
    assert IdsFit(ls);
    AttrTableFitsFromIds(ls);
    AttrDocRows(k1, v1, k3, v3, k4, v4);
    AttrDocChunks(k1, v1, k3, v3, k4, v4, codec);
    ThreeChunkSection(ls, AttrsOf(ls), [(0, k1, [(0, v1)]), (1, k3, [(0, v3)]), (1, k4, [(1, v4)])],
      ([0x0B] + [0, 0, 0, 0] + codec(k1) + [0x00] + codec(v1) + [0x00] + [0x0D])
      + ([0x0B] + [0, 0, 0, 1] + codec(k3) + [0x00] + codec(v3) + [0x00] + [0x00] + [0x0D])
      + ([0x0B] + [0, 0, 0, 1] + codec(k4) + [0x00] + [0x00] + codec(v4) + [0x00] + [0x0D]), codec);
  }

  /** The attribute test with its own names and values, written as ASCII. */
  lemma AttrTestSection(codec: Codec)
    requires codec("key1") == [0x6B, 0x65, 0x79, 0x31] && codec("key3") == [0x6B, 0x65, 0x79, 0x33]
    requires codec("key4") == [0x6B, 0x65, 0x79, 0x34]
    requires codec("val2") == [0x76, 0x61, 0x6C, 0x32] && codec("val") == [0x76, 0x61, 0x6C]
    ensures AttrsOf(AttrDoc("key1", "val2", "key3", "val", "key4", "val2")) ==
      [(0, [("key1", [(0, "val2")])]), (1, [("key3", [(0, "val")]), ("key4", [(1, "val2")])])]
    ensures ChunkCount(AttrDoc("key1", "val2", "key3", "val", "key4", "val2")) == 3
    ensures AttrTableFits(AttrsOf(AttrDoc("key1", "val2", "key3", "val", "key4", "val2")), AttrDoc("key1", "val2", "key3", "val", "key4", "val2"))
    ensures AttrsSection(AttrDoc("key1", "val2", "key3", "val", "key4", "val2"),
      AttrsOf(AttrDoc("key1", "val2", "key3", "val", "key4", "val2")), 3, codec) ==
      [0x05] + [0, 0, 0, 3]
      + (([0x0B] + [0, 0, 0, 0] + [0x6B, 0x65, 0x79, 0x31] + [0x00] + [0x76, 0x61, 0x6C, 0x32] + [0x00] + [0x0D])
         + ([0x0B] + [0, 0, 0, 1] + [0x6B, 0x65, 0x79, 0x33] + [0x00] + [0x76, 0x61, 0x6C] + [0x00] + [0x00] + [0x0D])
         + ([0x0B] + [0, 0, 0, 1] + [0x6B, 0x65, 0x79, 0x34] + [0x00] + [0x00] + [0x76, 0x61, 0x6C, 0x32] + [0x00] + [0x0D]))
      + [0x06]
  {
    assert "key3"[3] != "key4"[3];
    AttrDocTable("key1", "val2", "key3", "val", "key4", "val2");
    AttrDocSection("key1", "val2", "key3", "val", "key4", "val2", codec);
  }
}

/**
 * The two grouping tables the writer builds before it writes anything
 * (tbf/core/parsing.py, `_prepare_relations_for_writing` and
 * `_prepare_attrs_for_writing`), as functions on values, with lemmas that
 * say what ends up in them.
 *
 * The relation table maps a parent layer id to a dictionary from child
 * layer id to the list of (parent id, child id) pairs between the two
 * layers.  The attribute table maps a layer id to a dictionary from
 * attribute name to a dictionary from object id to value.  Both are
 * insertion-ordered, so the order in which groups and chunks are written
 * later is fixed by the order in which the tables were filled.
 */
module Tables {
  import opened Assoc
  import opened Bytes
  import opened Models

  /***** Relations *****/

  /** One parent-child link as the writer records it. */
  datatype Edge = Edge(parentLayer: int, childLayer: int, parentId: int, childId: int)

  /** The links of one object, in the order of its children. */
  function ObjectEdges(o: ObjectValue): seq<Edge>
  {
    seq(|o.children|, i requires 0 <= i < |o.children| => Edge(o.layer, o.children[i].layer, o.id, o.children[i].id))
  }

  /** The links of a list of objects, object by object. */
  function Edges(objs: seq<ObjectValue>): seq<Edge>
  {
    if objs == [] then [] else Edges(objs[..|objs| - 1]) + ObjectEdges(objs[|objs| - 1])
  }

  type Pairs = seq<(int, int)>

  /** `_temp_relations`: parent layer id -> child layer id -> pairs. */
  type RelationTable = Dict<int, Dict<int, Pairs>>

  /** The pairs stored for a (parent layer, child layer) group; empty when there is none. */
  function GroupOf(t: RelationTable, pl: int, cl: int): Pairs
  {
    GetOr(GetOr(t, pl, []), cl, [])
  }

  predicate HasGroup(t: RelationTable, pl: int, cl: int)
  {
    HasKey(GetOr(t, pl, []), cl)
  }

  /** Both levels are dictionaries: no key is stored twice. */
  ghost predicate WellFormed(t: RelationTable)
  {
    DistinctKeys(t) && forall pl :: DistinctKeys(GetOr(t, pl, []))
  }

  /** In a well-formed table each inner dictionary is the one its key finds, so it has distinct keys too. */
  lemma WellFormedAt(t: RelationTable, i: int)
    requires WellFormed(t) && 0 <= i < |t|
    ensures GetOr(t, t[i].0, []) == t[i].1
    ensures DistinctKeys(t[i].1)
  {
    assert Get(t, t[i].0) == Some(t[i].1);
  }

  /**
   * One step of the first loop of `_prepare_relations_for_writing`:
   * `setdefault(parent layer, {}).setdefault(child layer, []).append(pair)`.
   * Exactly one group grows, by the link's pair at its end; a group that
   * did not exist is created, which adds one to the number of groups.
   */
  function AddRelation(t: RelationTable, e: Edge): (r: RelationTable)
    ensures forall pl, cl :: (GroupOf(r, pl, cl) ==
      if pl == e.parentLayer && cl == e.childLayer then GroupOf(t, pl, cl) + [(e.parentId, e.childId)]
      else GroupOf(t, pl, cl))
    ensures forall pl :: HasKey(r, pl) <==> HasKey(t, pl) || pl == e.parentLayer
    ensures forall pl, cl :: HasGroup(r, pl, cl) <==> HasGroup(t, pl, cl) || (pl == e.parentLayer && cl == e.childLayer)
    ensures WellFormed(t) ==> WellFormed(r)
    ensures WellFormed(t) ==> TotalSize(r) == TotalSize(t) + if HasGroup(t, e.parentLayer, e.childLayer) then 0 else 1
  {
    AddRelationGroups(t, e);
    AddRelationKeys(t, e);
    AddRelationSize(t, e);
    Grown(t, e)
  }

  /** The table with the link's pair appended to its group. */
  function Grown(t: RelationTable, e: Edge): RelationTable
  {
    PutIn(t, e.parentLayer, e.childLayer, GroupOf(t, e.parentLayer, e.childLayer) + [(e.parentId, e.childId)])
  }

  lemma AddRelationGroups(t: RelationTable, e: Edge)
    ensures forall pl, cl :: (GroupOf(Grown(t, e), pl, cl) ==
      if pl == e.parentLayer && cl == e.childLayer then GroupOf(t, pl, cl) + [(e.parentId, e.childId)]
      else GroupOf(t, pl, cl))
  {
    forall pl, cl
      ensures GroupOf(Grown(t, e), pl, cl) ==
        if pl == e.parentLayer && cl == e.childLayer then GroupOf(t, pl, cl) + [(e.parentId, e.childId)]
        else GroupOf(t, pl, cl)
    {
      if pl == e.parentLayer {
        assert GetOr(Grown(t, e), pl, []) == Put(GetOr(t, pl, []), e.childLayer, GroupOf(t, e.parentLayer, e.childLayer) + [(e.parentId, e.childId)]);
        GetOrPut(GetOr(t, pl, []), e.childLayer, GroupOf(t, e.parentLayer, e.childLayer) + [(e.parentId, e.childId)], cl, []);
      } else {
        assert GetOr(Grown(t, e), pl, []) == GetOr(t, pl, []);
      }
    }
  }

  lemma AddRelationKeys(t: RelationTable, e: Edge)
    ensures forall pl :: HasKey(Grown(t, e), pl) <==> HasKey(t, pl) || pl == e.parentLayer
    ensures forall pl, cl :: HasGroup(Grown(t, e), pl, cl) <==> HasGroup(t, pl, cl) || (pl == e.parentLayer && cl == e.childLayer)
  {
    forall pl, cl
      ensures HasGroup(Grown(t, e), pl, cl) <==> HasGroup(t, pl, cl) || (pl == e.parentLayer && cl == e.childLayer)
    {
      if pl == e.parentLayer {
        assert GetOr(Grown(t, e), pl, []) == Put(GetOr(t, pl, []), e.childLayer, GroupOf(t, e.parentLayer, e.childLayer) + [(e.parentId, e.childId)]);
      } else {
        assert GetOr(Grown(t, e), pl, []) == GetOr(t, pl, []);
      }
    }
  }

  lemma AddRelationSize(t: RelationTable, e: Edge)
    ensures WellFormed(t) ==> WellFormed(Grown(t, e))
    ensures WellFormed(t) ==> TotalSize(Grown(t, e)) == TotalSize(t) + if HasGroup(t, e.parentLayer, e.childLayer) then 0 else 1
  {
  }

  /** The whole first loop: the links added one after the other, starting from `t`. */
  function AddRelations(t: RelationTable, es: seq<Edge>): RelationTable
  {
    if es == [] then t else AddRelation(AddRelations(t, es[..|es| - 1]), es[|es| - 1])
  }

  /* One more object, one more link: the steps of the writer's loops. */

  lemma EdgesNext(objs: seq<ObjectValue>, i: int)
    requires 0 <= i < |objs|
    ensures Edges(objs[..i + 1]) == Edges(objs[..i]) + ObjectEdges(objs[i])
  {
    assert objs[..i + 1][..i] == objs[..i];
  }

  lemma AddRelationsNext(t: RelationTable, es: seq<Edge>, e: Edge)
    ensures AddRelations(t, es + [e]) == AddRelation(AddRelations(t, es), e)
  {
    assert (es + [e])[..|es|] == es;
  }

  /** Adding the links of `a` and then those of `b` is adding the links of `a + b`. */
  lemma {:induction false} AddRelationsAppend(t: RelationTable, a: seq<Edge>, b: seq<Edge>)
    ensures AddRelations(t, a + b) == AddRelations(AddRelations(t, a), b)
    decreases |b|
  {
    if b == [] {
      assert a + b == a;
    } else {
      var n := |b| - 1;
      assert (a + b)[..|a + b| - 1] == a + b[..n];
      AddRelationsAppend(t, a, b[..n]);
    }
  }

  /** Reference definition of a group: the pairs of the links between two layers, in link order. */
  function PairsBetween(es: seq<Edge>, pl: int, cl: int): Pairs
  {
    if es == [] then []
    else
      var e := es[|es| - 1];
      PairsBetween(es[..|es| - 1], pl, cl) + if e.parentLayer == pl && e.childLayer == cl then [(e.parentId, e.childId)] else []
  }

  /** The (parent layer, child layer) combinations the links use. */
  function LayerPairs(es: seq<Edge>): set<(int, int)>
  {
    set e | e in es :: (e.parentLayer, e.childLayer)
  }

  function ParentLayers(es: seq<Edge>): set<int>
  {
    set e | e in es :: e.parentLayer
  }

  lemma {:induction false} PairsBetweenLength(es: seq<Edge>, pl: int, cl: int)
    ensures |PairsBetween(es, pl, cl)| <= |es|
  {
    if es != [] {
      PairsBetweenLength(es[..|es| - 1], pl, cl);
    }
  }

  /** Every pair of a group comes from a link between the group's two layers. */
  lemma {:induction false} PairsBetweenFrom(es: seq<Edge>, pl: int, cl: int, k: int)
    requires 0 <= k < |PairsBetween(es, pl, cl)|
    ensures Edge(pl, cl, PairsBetween(es, pl, cl)[k].0, PairsBetween(es, pl, cl)[k].1) in es
  {
    var n := |es| - 1;
    var init := es[..n];
    if k < |PairsBetween(init, pl, cl)| {
      PairsBetweenFrom(init, pl, cl, k);
      assert init[..] <= es;
    } else {
      assert es[n] == Edge(pl, cl, PairsBetween(es, pl, cl)[k].0, PairsBetween(es, pl, cl)[k].1);
    }
  }

  /**
   * What `_prepare_relations_for_writing` builds from an empty table:
   * a dictionary of dictionaries whose group for two layers holds exactly
   * the pairs of the links between them, in order; a group exists exactly
   * for the layer combinations the links use; and the number of groups,
   * which the second loop adds up into `_temp_num_of_relations`, is the
   * number of distinct combinations.
   */
  lemma {:induction false} AddRelationsSpec(es: seq<Edge>)
    ensures WellFormed(AddRelations([], es))
    ensures forall pl, cl :: GroupOf(AddRelations([], es), pl, cl) == PairsBetween(es, pl, cl)
    ensures forall pl, cl :: HasGroup(AddRelations([], es), pl, cl) <==> (pl, cl) in LayerPairs(es)
    ensures forall pl :: HasKey(AddRelations([], es), pl) <==> pl in ParentLayers(es)
    ensures TotalSize(AddRelations([], es)) == |LayerPairs(es)| <= |es|
  {
    AddRelationsGroups(es);
    AddRelationsShape(es);
    AddRelationsCount(es);
  }

  lemma AddRelationsGroupStep(es: seq<Edge>, pl: int, cl: int)
    requires es != []
    requires GroupOf(AddRelations([], es[..|es| - 1]), pl, cl) == PairsBetween(es[..|es| - 1], pl, cl)
    ensures GroupOf(AddRelations([], es), pl, cl) == PairsBetween(es, pl, cl)
  {
    var e := es[|es| - 1];
    assert AddRelations([], es) == AddRelation(AddRelations([], es[..|es| - 1]), e);
    if e.parentLayer == pl && e.childLayer == cl {
      assert PairsBetween(es, pl, cl) == PairsBetween(es[..|es| - 1], pl, cl) + [(e.parentId, e.childId)];
    } else {
      assert PairsBetween(es, pl, cl) == PairsBetween(es[..|es| - 1], pl, cl);
    }
  }

  lemma {:induction false} AddRelationsGroups(es: seq<Edge>)
    ensures forall pl, cl :: GroupOf(AddRelations([], es), pl, cl) == PairsBetween(es, pl, cl)
  {
    if es != [] {
      AddRelationsGroups(es[..|es| - 1]);
      forall pl, cl
        ensures GroupOf(AddRelations([], es), pl, cl) == PairsBetween(es, pl, cl)
      {
        AddRelationsGroupStep(es, pl, cl);
      }
    }
  }

  lemma {:induction false} AddRelationsShape(es: seq<Edge>)
    ensures WellFormed(AddRelations([], es))
    ensures forall pl, cl :: HasGroup(AddRelations([], es), pl, cl) <==> (pl, cl) in LayerPairs(es)
    ensures forall pl :: HasKey(AddRelations([], es), pl) <==> pl in ParentLayers(es)
  {
    if es == [] {
      assert LayerPairs(es) == {};
      assert ParentLayers(es) == {};
    } else {
      AddRelationsShape(es[..|es| - 1]);
      LayerSetsStep(es);
    }
  }

  lemma {:induction false} AddRelationsCount(es: seq<Edge>)
    ensures TotalSize(AddRelations([], es)) == |LayerPairs(es)| <= |es|
  {
    if es == [] {
      assert LayerPairs(es) == {};
    } else {
      var n := |es| - 1;
      var t0, e := AddRelations([], es[..n]), es[n];
      var x := (e.parentLayer, e.childLayer);
      AddRelationsCount(es[..n]);
      AddRelationsShape(es[..n]);
      LayerSetsStep(es);
      assert HasGroup(t0, e.parentLayer, e.childLayer) <==> x in LayerPairs(es[..n]);
      assert |LayerPairs(es)| == |LayerPairs(es[..n])| + if x in LayerPairs(es[..n]) then 0 else 1;
    }
  }

  lemma LayerSetsStep(es: seq<Edge>)
    requires es != []
    ensures LayerPairs(es) == LayerPairs(es[..|es| - 1]) + {(es[|es| - 1].parentLayer, es[|es| - 1].childLayer)}
    ensures ParentLayers(es) == ParentLayers(es[..|es| - 1]) + {es[|es| - 1].parentLayer}
  {
    assert es == es[..|es| - 1] + [es[|es| - 1]];
  }

  /** Every number the writer would take from a link fits in four bytes. */
  predicate EdgesFit(es: seq<Edge>)
  {
    IsU32(|es|) &&
    forall e :: e in es ==> IsU32(e.parentLayer) && IsU32(e.childLayer) && IsU32(e.parentId) && IsU32(e.childId)
  }

  predicate PairsFit(ps: Pairs)
  {
    forall k :: 0 <= k < |ps| ==> IsU32(ps[k].0) && IsU32(ps[k].1)
  }

  predicate GroupsFit(inner: Dict<int, Pairs>)
  {
    forall j :: 0 <= j < |inner| ==> IsU32(inner[j].0) && IsU32(|inner[j].1|) && PairsFit(inner[j].1)
  }

  /** Every layer id, pair count and object id `_write_relations` writes from the table fits in four bytes. */
  predicate GroupTableFits(t: RelationTable)
  {
    forall i :: 0 <= i < |t| ==> IsU32(t[i].0) && GroupsFit(t[i].1)
  }

  /** ... and so does the number of groups. */
  predicate RelationsFit(t: RelationTable)
  {
    IsU32(TotalSize(t)) && GroupTableFits(t)
  }

  lemma RelationsFitFromEdges(es: seq<Edge>)
    requires EdgesFit(es)
    ensures RelationsFit(AddRelations([], es))
  {
    var t := AddRelations([], es);
    AddRelationsSpec(es);
    forall i | 0 <= i < |t|
      ensures IsU32(t[i].0) && GroupsFit(t[i].1)
    {
      var pl := t[i].0;
      assert HasKey(t, pl);
      var e :| e in es && e.parentLayer == pl;
      WellFormedAt(t, i);
      var inner := t[i].1;
      forall j | 0 <= j < |inner|
        ensures IsU32(inner[j].0) && IsU32(|inner[j].1|) && PairsFit(inner[j].1)
      {
        var cl := inner[j].0;
        assert HasKey(inner, cl);
        assert (pl, cl) in LayerPairs(es);
        var e' :| e' in es && (e'.parentLayer, e'.childLayer) == (pl, cl);
        assert Get(inner, cl) == Some(inner[j].1);
        assert inner[j].1 == PairsBetween(es, pl, cl);
        PairsBetweenLength(es, pl, cl);
        forall k | 0 <= k < |inner[j].1|
          ensures IsU32(inner[j].1[k].0) && IsU32(inner[j].1[k].1)
        {
          PairsBetweenFrom(es, pl, cl, k);
        }
      }
    }
  }

  /***** Attributes *****/

  /** One attribute of one object: (object id, name, value). */
  datatype AttrEntry = AttrEntry(objId: int, key: string, value: string)

  /** One object's attributes in dictionary order. */
  function ObjectAttrs(o: ObjectValue): seq<AttrEntry>
  {
    seq(|o.attrs|, i requires 0 <= i < |o.attrs| => AttrEntry(o.id, o.attrs[i].0, o.attrs[i].1))
  }

  /** The attributes of a list of objects, object by object. */
  function AttrEntries(objs: seq<ObjectValue>): seq<AttrEntry>
  {
    if objs == [] then [] else AttrEntries(objs[..|objs| - 1]) + ObjectAttrs(objs[|objs| - 1])
  }

  /** Object id -> attribute value. */
  type AttrValues = Dict<int, string>

  /** One layer's part of `_temp_attributes`: attribute name -> object id -> value. */
  type LayerAttrs = Dict<string, AttrValues>

  /** `_temp_attributes`: layer id -> attribute name -> object id -> value. */
  type AttrTable = Dict<int, LayerAttrs>

  function ValueOf(t: LayerAttrs, key: string, oid: int): Option<string>
  {
    Get(GetOr(t, key, []), oid)
  }

  ghost predicate AttrsWellFormed(t: LayerAttrs)
  {
    DistinctKeys(t) && forall k :: DistinctKeys(GetOr(t, k, []))
  }

  /**
   * One step of the inner loops of `_prepare_attrs_for_writing`:
   * `setdefault(key, {})[obj.id] = value`.  Only the value of that name for
   * that object changes; the name is added if it was not there.
   */
  function AddAttr(t: LayerAttrs, e: AttrEntry): (r: LayerAttrs)
    ensures forall k, oid :: ValueOf(r, k, oid) == if k == e.key && oid == e.objId then Some(e.value) else ValueOf(t, k, oid)
    ensures forall k :: HasKey(r, k) <==> HasKey(t, k) || k == e.key
    ensures |r| == |t| + if HasKey(t, e.key) then 0 else 1
    ensures AttrsWellFormed(t) ==> AttrsWellFormed(r)
  {
    AddAttrValues(t, e);
    AddAttrKeys(t, e);
    PutIn(t, e.key, e.objId, e.value)
  }

  lemma AddAttrValues(t: LayerAttrs, e: AttrEntry)
    ensures forall k, oid :: ValueOf(PutIn(t, e.key, e.objId, e.value), k, oid) == if k == e.key && oid == e.objId then Some(e.value) else ValueOf(t, k, oid)
  {
    forall k, oid
      ensures ValueOf(PutIn(t, e.key, e.objId, e.value), k, oid) == if k == e.key && oid == e.objId then Some(e.value) else ValueOf(t, k, oid)
    {
      if k == e.key {
        assert GetOr(PutIn(t, e.key, e.objId, e.value), k, []) == Put(GetOr(t, k, []), e.objId, e.value);
      } else {
        assert GetOr(PutIn(t, e.key, e.objId, e.value), k, []) == GetOr(t, k, []);
      }
    }
  }

  lemma AddAttrKeys(t: LayerAttrs, e: AttrEntry)
    ensures forall k :: HasKey(PutIn(t, e.key, e.objId, e.value), k) <==> HasKey(t, k) || k == e.key
    ensures |PutIn(t, e.key, e.objId, e.value)| == |t| + if HasKey(t, e.key) then 0 else 1
  {
  }

  function AddAttrs(t: LayerAttrs, es: seq<AttrEntry>): LayerAttrs
  {
    if es == [] then t else AddAttr(AddAttrs(t, es[..|es| - 1]), es[|es| - 1])
  }

  lemma AttrEntriesNext(objs: seq<ObjectValue>, j: int)
    requires 0 <= j < |objs|
    ensures AttrEntries(objs[..j + 1]) == AttrEntries(objs[..j]) + ObjectAttrs(objs[j])
  {
    assert objs[..j + 1][..j] == objs[..j];
  }

  lemma AddAttrsNext(t: LayerAttrs, es: seq<AttrEntry>, e: AttrEntry)
    ensures AddAttrs(t, es + [e]) == AddAttr(AddAttrs(t, es), e)
  {
    assert (es + [e])[..|es|] == es;
  }

  lemma {:induction false} AddAttrsAppend(t: LayerAttrs, a: seq<AttrEntry>, b: seq<AttrEntry>)
    ensures AddAttrs(t, a + b) == AddAttrs(AddAttrs(t, a), b)
    decreases |b|
  {
    if b == [] {
      assert a + b == a;
    } else {
      var n := |b| - 1;
      assert (a + b)[..|a + b| - 1] == a + b[..n];
      AddAttrsAppend(t, a, b[..n]);
    }
  }

  /** The table built for one layer from its objects. */
  function LayerAttrTable(objs: seq<ObjectValue>): LayerAttrs
  {
    AddAttrs([], AttrEntries(objs))
  }

  /** Reference definition of a stored value: the last entry for that name and object wins. */
  function LastValue(es: seq<AttrEntry>, key: string, oid: int): Option<string>
  {
    if es == [] then None
    else if es[|es| - 1].key == key && es[|es| - 1].objId == oid then Some(es[|es| - 1].value)
    else LastValue(es[..|es| - 1], key, oid)
  }

  function AttrNames(es: seq<AttrEntry>): set<string>
  {
    set e | e in es :: e.key
  }

  /**
   * What one layer's table holds: for each name and object the value of
   * the last matching attribute; a name exactly when some object has it;
   * and as many names (later: chunks) as there are distinct names.
   */
  lemma {:induction false} AddAttrsSpec(es: seq<AttrEntry>)
    ensures AttrsWellFormed(AddAttrs([], es))
    ensures forall k, oid :: ValueOf(AddAttrs([], es), k, oid) == LastValue(es, k, oid)
    ensures forall k :: HasKey(AddAttrs([], es), k) <==> k in AttrNames(es)
    ensures |AddAttrs([], es)| == |AttrNames(es)|
  {
    AddAttrsValues(es);
    AddAttrsNames(es);
  }

  lemma {:induction false} AddAttrsValues(es: seq<AttrEntry>)
    ensures forall k, oid :: ValueOf(AddAttrs([], es), k, oid) == LastValue(es, k, oid)
  {
    if es != [] {
      var n := |es| - 1;
      var t0 := AddAttrs([], es[..n]);
      AddAttrsValues(es[..n]);
      forall k, oid
        ensures ValueOf(AddAttrs([], es), k, oid) == LastValue(es, k, oid)
      {
        assert ValueOf(t0, k, oid) == LastValue(es[..n], k, oid);
      }
    }
  }

  lemma {:induction false} AddAttrsNames(es: seq<AttrEntry>)
    ensures AttrsWellFormed(AddAttrs([], es))
    ensures forall k :: HasKey(AddAttrs([], es), k) <==> k in AttrNames(es)
    ensures |AddAttrs([], es)| == |AttrNames(es)|
  {
    if es == [] {
      assert AttrNames(es) == {};
    } else {
      var n := |es| - 1;
      var t0, e := AddAttrs([], es[..n]), es[n];
      AddAttrsNames(es[..n]);
      AttrNamesStep(es);
      assert HasKey(t0, e.key) <==> e.key in AttrNames(es[..n]);
      assert |AttrNames(es)| == |AttrNames(es[..n])| + if e.key in AttrNames(es[..n]) then 0 else 1;
    }
  }

  lemma AttrNamesStep(es: seq<AttrEntry>)
    requires es != []
    ensures AttrNames(es) == AttrNames(es[..|es| - 1]) + {es[|es| - 1].key}
  {
    assert es == es[..|es| - 1] + [es[|es| - 1]];
  }

  /** A stored value comes from an attribute of an object with that id. */
  lemma {:induction false} LastValueFrom(es: seq<AttrEntry>, key: string, oid: int)
    requires LastValue(es, key, oid).Some?
    ensures AttrEntry(oid, key, LastValue(es, key, oid).value) in es
  {
    var n := |es| - 1;
    if !(es[n].key == key && es[n].objId == oid) {
      LastValueFrom(es[..n], key, oid);
      assert es[..n] <= es;
    }
  }

  predicate DistinctObjectIds(objs: seq<ObjectValue>)
  {
    forall i, j :: 0 <= i < j < |objs| ==> objs[i].id != objs[j].id
  }

  /** The attributes of the objects of a list all carry the id of one of those objects. */
  lemma {:induction false} AttrEntriesFrom(objs: seq<ObjectValue>, e: AttrEntry)
    requires e in AttrEntries(objs)
    ensures exists i :: 0 <= i < |objs| && objs[i].id == e.objId && HasKey(objs[i].attrs, e.key)
  {
    var n := |objs| - 1;
    if e in AttrEntries(objs[..n]) {
      AttrEntriesFrom(objs[..n], e);
      var i :| 0 <= i < n && objs[..n][i].id == e.objId && HasKey(objs[..n][i].attrs, e.key);
      assert objs[i] == objs[..n][i];
    } else {
      var k :| 0 <= k < |objs[n].attrs| && ObjectAttrs(objs[n])[k] == e;
      assert objs[n].attrs[k].0 == e.key;
    }
  }

  /** An object's own attributes, looked up from the end, give its dictionary's values. */
  lemma {:induction false} ObjectAttrsLast(o: ObjectValue, es: seq<AttrEntry>, key: string)
    requires DistinctKeys(o.attrs)
    requires forall e :: e in es ==> e.objId != o.id
    ensures LastValue(es + ObjectAttrs(o), key, o.id) == Get(o.attrs, key)
    decreases |o.attrs|
  {
    var d := o.attrs;
    if d == [] {
      assert es + ObjectAttrs(o) == es;
      LastValueNone(es, key, o.id);
    } else {
      var n := |d| - 1;
      var o' := o.(attrs := d[..n]);
      assert ObjectAttrs(o) == ObjectAttrs(o') + [AttrEntry(o.id, d[n].0, d[n].1)];
      assert (es + ObjectAttrs(o))[..|es + ObjectAttrs(o)| - 1] == es + ObjectAttrs(o');
      if d[n].0 != key {
        ObjectAttrsLast(o', es, key);
        assert Get(d[..n], key) == Get(d, key) by {
          assert d == d[..n] + [d[n]];
          assert Find(d[..n], key) == Find(d, key);
        }
      } else {
        assert Get(d, key) == Some(d[n].1);
      }
    }
  }

  lemma {:induction false} LastValueNone(es: seq<AttrEntry>, key: string, oid: int)
    requires forall e :: e in es ==> e.objId != oid
    ensures LastValue(es, key, oid) == None
  {
    if es != [] {
      var n := |es| - 1;
      assert es[n] in es;
      assert forall e :: e in es[..n] ==> e in es;
      LastValueNone(es[..n], key, oid);
    }
  }

  /**
   * When a layer's object ids are distinct, its table stores for every
   * object and every name exactly that object's attribute value.
   */
  lemma {:induction false} LayerAttrTableLookup(objs: seq<ObjectValue>, i: int, key: string)
    requires DistinctObjectIds(objs) && 0 <= i < |objs|
    requires forall j :: 0 <= j < |objs| ==> DistinctKeys(objs[j].attrs)
    ensures ValueOf(LayerAttrTable(objs), key, objs[i].id) == Get(objs[i].attrs, key)
  {
    AddAttrsSpec(AttrEntries(objs));
    EntriesLookup(objs, i, key);
  }

  lemma {:induction false} EntriesLookup(objs: seq<ObjectValue>, i: int, key: string)
    requires DistinctObjectIds(objs) && 0 <= i < |objs|
    requires forall j :: 0 <= j < |objs| ==> DistinctKeys(objs[j].attrs)
    ensures LastValue(AttrEntries(objs), key, objs[i].id) == Get(objs[i].attrs, key)
  {
    var n := |objs| - 1;
    var init := objs[..n];
    var es := AttrEntries(objs);
    forall e | e in AttrEntries(init) && e.objId == objs[n].id
      ensures false
    {
      AttrEntriesFrom(init, e);
    }
    if i == n {
      ObjectAttrsLast(objs[n], AttrEntries(init), key);
    } else {
      assert LastValue(ObjectAttrs(objs[n]), key, objs[i].id) == None by {
        LastValueNone(ObjectAttrs(objs[n]), key, objs[i].id);
      }
      LastValueSkip(AttrEntries(init), ObjectAttrs(objs[n]), key, objs[i].id);
      assert init[i] == objs[i];
      EntriesLookup(init, i, key);
    }
  }

  lemma {:induction false} LastValueSkip(es: seq<AttrEntry>, tail: seq<AttrEntry>, key: string, oid: int)
    requires LastValue(tail, key, oid) == None
    ensures LastValue(es + tail, key, oid) == LastValue(es, key, oid)
    decreases |tail|
  {
    if tail == [] {
      assert es + tail == es;
    } else {
      var n := |tail| - 1;
      assert (es + tail)[..|es + tail| - 1] == es + tail[..n];
      LastValueSkip(es, tail[..n], key, oid);
    }
  }

  /** One step of the outer loop: `_temp_attributes[layer.id] = <the layer's table>`. */
  function AttrTableFrom(t: AttrTable, ls: seq<LayerValue>): AttrTable
  {
    if ls == [] then t
    else
      var l := ls[|ls| - 1];
      Put(AttrTableFrom(t, ls[..|ls| - 1]), l.id, LayerAttrTable(l.objects))
  }

  /** `_temp_num_of_chunks` after the loop: each layer adds the number of names in its table. */
  function ChunkCount(ls: seq<LayerValue>): nat
  {
    if ls == [] then 0 else ChunkCount(ls[..|ls| - 1]) + |LayerAttrTable(ls[|ls| - 1].objects)|
  }

  lemma AttrTableFromNext(t: AttrTable, ls: seq<LayerValue>, i: int)
    requires 0 <= i < |ls|
    ensures AttrTableFrom(t, ls[..i + 1]) == Put(AttrTableFrom(t, ls[..i]), ls[i].id, LayerAttrTable(ls[i].objects))
    ensures ChunkCount(ls[..i + 1]) == ChunkCount(ls[..i]) + |LayerAttrTable(ls[i].objects)|
  {
    assert ls[..i + 1][..i] == ls[..i];
  }

  /**
   * The attribute table built from an empty one has an entry for exactly
   * the document's layer ids, and the entry for an id is the table of the
   * last layer with that id: the same layer `get_layer_by_id` returns.
   */
  lemma {:induction false} AttrTableSpec(ls: seq<LayerValue>)
    ensures DistinctKeys(AttrTableFrom([], ls))
    ensures forall id :: HasKey(AttrTableFrom([], ls), id) <==> id in LayerIds(ls)
    ensures forall id :: id in LayerIds(ls) ==> Get(AttrTableFrom([], ls), id) == Some(LayerAttrTable(LayerWithId(ls, id).objects))
  {
    AttrTableKeys(ls);
    AttrTableValues(ls);
  }

  lemma {:induction false} AttrTableKeys(ls: seq<LayerValue>)
    ensures DistinctKeys(AttrTableFrom([], ls))
    ensures forall id :: HasKey(AttrTableFrom([], ls), id) <==> id in LayerIds(ls)
  {
    if ls != [] {
      AttrTableKeys(ls[..|ls| - 1]);
      LayerIdsLast(ls);
    }
  }

  lemma {:induction false} AttrTableValues(ls: seq<LayerValue>)
    ensures forall id :: id in LayerIds(ls) ==> Get(AttrTableFrom([], ls), id) == Some(LayerAttrTable(LayerWithId(ls, id).objects))
  {
    if ls != [] {
      AttrTableValues(ls[..|ls| - 1]);
      forall id | id in LayerIds(ls)
        ensures Get(AttrTableFrom([], ls), id) == Some(LayerAttrTable(LayerWithId(ls, id).objects))
      {
        LayerWithIdLast(ls, id);
      }
    }
  }

  predicate DistinctLayerIds(ls: seq<LayerValue>)
  {
    forall i, j :: 0 <= i < j < |ls| ==> ls[i].id != ls[j].id
  }

  /**
   * With distinct layer ids, the chunk count written at the head of the
   * attributes section is the number of chunks that follow it.
   */
  lemma {:induction false} ChunkCountIsChunks(ls: seq<LayerValue>)
    requires DistinctLayerIds(ls)
    ensures ChunkCount(ls) == TotalSize(AttrTableFrom([], ls))
  {
    if ls != [] {
      var n := |ls| - 1;
      ChunkCountIsChunks(ls[..n]);
      AttrTableSpec(ls[..n]);
      assert ls[n].id !in LayerIds(ls[..n]);
      var t := AttrTableFrom([], ls);
      assert t[..|t| - 1] == AttrTableFrom([], ls[..n]);
    }
  }

  predicate ValuesFit(vals: AttrValues)
  {
    forall k :: 0 <= k < |vals| ==> IsU32(vals[k].0)
  }

  /**
   * What `_write_attrs` needs of the table: every layer id names a layer of
   * the document and fits in four bytes, and so does every object id.
   */
  predicate AttrTableFits(t: AttrTable, ls: seq<LayerValue>)
  {
    forall i :: 0 <= i < |t| ==>
      t[i].0 in LayerIds(ls) && IsU32(t[i].0) &&
      forall j :: 0 <= j < |t[i].1| ==> ValuesFit(t[i].1[j].1)
  }

  predicate IdsFit(ls: seq<LayerValue>)
  {
    forall i :: 0 <= i < |ls| ==> IsU32(ls[i].id) && forall j :: 0 <= j < |ls[i].objects| ==> IsU32(ls[i].objects[j].id)
  }

  lemma AttrTableFitsFromIds(ls: seq<LayerValue>)
    requires IdsFit(ls)
    ensures AttrTableFits(AttrTableFrom([], ls), ls)
  {
    var t := AttrTableFrom([], ls);
    AttrTableSpec(ls);
    forall i | 0 <= i < |t|
      ensures t[i].0 in LayerIds(ls) && IsU32(t[i].0) && forall j :: 0 <= j < |t[i].1| ==> ValuesFit(t[i].1[j].1)
    {
      var id := t[i].0;
      assert HasKey(t, id);
      var x := LastIndex(LayerIds(ls), id);
      var l := LayerWithId(ls, id);
      assert l == ls[x];
      assert Get(t, id) == Some(t[i].1);
      var inner := t[i].1;
      assert inner == LayerAttrTable(l.objects);
      AddAttrsSpec(AttrEntries(l.objects));
      forall j | 0 <= j < |inner|
        ensures ValuesFit(inner[j].1)
      {
        var key := inner[j].0;
        assert Get(inner, key) == Some(inner[j].1);
        var vals := inner[j].1;
        forall k | 0 <= k < |vals|
          ensures IsU32(vals[k].0)
        {
          var oid := vals[k].0;
          assert HasKey(vals, oid);
          assert ValueOf(inner, key, oid).Some?;
          LastValueFrom(AttrEntries(l.objects), key, oid);
          AttrEntriesFrom(l.objects, AttrEntry(oid, key, LastValue(AttrEntries(l.objects), key, oid).value));
        }
      }
    }
  }
}

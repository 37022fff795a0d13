/**
 * The in-memory document model the writer serialises (tbf/core/models.py):
 * a Document is a list of Layers plus an index from layer id to layer; a
 * Layer is a named list of LayerObjects; a LayerObject has an id, the id
 * of the layer that owns it, a list of children and a dictionary of
 * string attributes.
 *
 * The three classes are updated in place, so they are Dafny classes. Each
 * has a `Value()` giving its current contents as a datatype value; the
 * format of the serialised bytes is specified on those values.
 * Identifiers and names are never reassigned by the source, so they are
 * `const` fields here.
 */
module Models {
  import opened Assoc

  /** A child link, recorded as the child's (layer id, object id): the only fields of a child the writer reads. */
  datatype ChildRef = ChildRef(layer: int, id: int)

  /** The document header; the writer reads only the encoding name. */
  datatype Header = Header(encoding: string)

  datatype ObjectValue = ObjectValue(id: int, layer: int, children: seq<ChildRef>, attrs: Dict<string, string>)

  datatype LayerValue = LayerValue(id: int, name: string, objects: seq<ObjectValue>)

  /***** Layer lists, as values and as heap objects *****/

  /** The position of the last occurrence of `id` in `ids`, or -1. */
  function LastIndex(ids: seq<int>, id: int): (r: int)
    ensures -1 <= r < |ids|
    ensures r == -1 <==> id !in ids
    ensures r != -1 ==> ids[r] == id && forall j :: r < j < |ids| ==> ids[j] != id
  {
    if ids == [] then -1
    else if ids[|ids| - 1] == id then |ids| - 1
    else LastIndex(ids[..|ids| - 1], id)
  }

  function LayerIds(ls: seq<LayerValue>): seq<int>
  {
    seq(|ls|, i requires 0 <= i < |ls| => ls[i].id)
  }

  /** The layer `get_layer_by_id` finds in a document that lists `ls`: the last one with that id. */
  function LayerWithId(ls: seq<LayerValue>, id: int): LayerValue
    requires id in LayerIds(ls)
  {
    ls[LastIndex(LayerIds(ls), id)]
  }

  /** The ids of a list of layers with one more layer at the end. */
  lemma LayerIdsLast(ls: seq<LayerValue>)
    requires ls != []
    ensures LayerIds(ls) == LayerIds(ls[..|ls| - 1]) + [ls[|ls| - 1].id]
  {
  }

  /** The last layer with an id is the one appended last, and the others are found before it. */
  lemma LayerWithIdLast(ls: seq<LayerValue>, id: int)
    requires ls != [] && id in LayerIds(ls)
    ensures id == ls[|ls| - 1].id ==> LayerWithId(ls, id) == ls[|ls| - 1]
    ensures id != ls[|ls| - 1].id ==> id in LayerIds(ls[..|ls| - 1]) && LayerWithId(ls, id) == LayerWithId(ls[..|ls| - 1], id)
  {
    LayerIdsLast(ls);
    if id != ls[|ls| - 1].id {
      assert LastIndex(LayerIds(ls), id) == LastIndex(LayerIds(ls[..|ls| - 1]), id);
    }
  }

  /** `get_all_objects()` on values: every layer's objects, layer by layer. */
  function AllObjects(ls: seq<LayerValue>): seq<ObjectValue>
  {
    if ls == [] then [] else AllObjects(ls[..|ls| - 1]) + ls[|ls| - 1].objects
  }

  /***** LayerObject *****/

  class LayerObject {
    const id: int
    var layer: int
    var children: seq<ChildRef>
    var attrs: Dict<string, string>

    /** `LayerObject(_id, layer_id, children, attrs)` */
    constructor (id: int, layerId: int, children: seq<ChildRef>, attrs: Dict<string, string>)
      ensures this.id == id && layer == layerId
      ensures this.children == children && this.attrs == attrs
    {
      this.id := id;
      layer := layerId;
      this.children := children;
      this.attrs := attrs;
    }

    function Value(): ObjectValue
      reads this
    {
      ObjectValue(id, layer, children, attrs)
    }

    /** `add_child(child)`: appends exactly one child link and keeps the earlier ones. */
    method AddChild(child: LayerObject)
      modifies this
      ensures children == old(children) + [ChildRef(old(child.layer), child.id)]
      ensures layer == old(layer) && attrs == old(attrs)
    {
      children := children + [ChildRef(child.layer, child.id)];
    }

    /**
     * `set_attr(key, value)`: the dictionary assignment `attrs[key] = value`,
     * whose effect Put's contract states (the key maps to the value, every
     * other key keeps its value and position).
     */
    method SetAttr(key: string, value: string)
      modifies this
      ensures attrs == Put(old(attrs), key, value)
      ensures layer == old(layer) && children == old(children)
    {
      attrs := Put(attrs, key, value);
    }
  }

  function ObjectValues(s: seq<LayerObject>): (r: seq<ObjectValue>)
    reads s
    ensures |r| == |s|
    ensures forall i :: 0 <= i < |s| ==> r[i] == s[i].Value()
  {
    if s == [] then [] else ObjectValues(s[..|s| - 1]) + [s[|s| - 1].Value()]
  }

  /***** Layer *****/

  class Layer {
    const id: int
    const name: string
    var objects: seq<LayerObject>

    /** `Layer(_id, name, objects)`: the given objects are taken as they are. */
    constructor (id: int, name: string, objects: seq<LayerObject>)
      ensures this.id == id && this.name == name && this.objects == objects
    {
      this.id := id;
      this.name := name;
      this.objects := objects;
    }

    function Value(): LayerValue
      reads this, objects
    {
      LayerValue(id, name, ObjectValues(objects))
    }

    /** `add_object(obj)`: stamps this layer's id on `obj` and appends it as the last object. */
    method AddObject(obj: LayerObject)
      modifies this, obj
      ensures objects == old(objects) + [obj]
      ensures obj.layer == id
      ensures obj.children == old(obj.children) && obj.attrs == old(obj.attrs)
    {
      obj.layer := id;
      objects := objects + [obj];
    }

    /** `add_objects(objs)`: `add_object` on each element in order. */
    method AddObjects(objs: seq<LayerObject>)
      modifies this, objs
      ensures objects == old(objects) + objs
      ensures forall o :: o in objs ==> o.layer == id
      ensures forall o :: o in objs ==> o.children == old(o.children) && o.attrs == old(o.attrs)
    {
      for i := 0 to |objs|
        invariant objects == old(objects) + objs[..i]
        invariant forall o :: o in objs[..i] ==> o.layer == id
        invariant forall o :: o in objs ==> o.children == old(o.children) && o.attrs == old(o.attrs)
      {
        AddObject(objs[i]);
        assert objs[..i + 1] == objs[..i] + [objs[i]];
      }
      assert objs[..|objs|] == objs;
    }
  }

  /** The objects of the layers `ls`: what the writer may read of them. */
  ghost function Footprint(ls: seq<Layer>): set<LayerObject>
    reads ls
  {
    set l, o | l in ls && o in l.objects :: o
  }

  function LayerValues(ls: seq<Layer>): (r: seq<LayerValue>)
    reads ls, Footprint(ls)
    ensures |r| == |ls|
    ensures forall i :: 0 <= i < |ls| ==> r[i] == ls[i].Value()
  {
    if ls == [] then []
    else
      var l := ls[|ls| - 1];
      assert forall o :: o in l.objects ==> o in Footprint(ls);
      LayerValues(ls[..|ls| - 1]) + [l.Value()]
  }

  function Ids(ls: seq<Layer>): seq<int>
  {
    seq(|ls|, i requires 0 <= i < |ls| => ls[i].id)
  }

  /** `{layer.id: layer for layer in layers}`: every listed id, mapped to the last layer listed with it. */
  function IndexById(ls: seq<Layer>): (m: map<int, Layer>)
    ensures forall id :: id in m <==> id in Ids(ls)
    ensures forall id :: id in m ==> m[id] == ls[LastIndex(Ids(ls), id)]
  {
    if ls == [] then map[]
    else
      var n := |ls| - 1;
      assert Ids(ls) == Ids(ls[..n]) + [ls[n].id];
      IndexById(ls[..n])[ls[n].id := ls[n]]
  }

  /** The layer objects of `ls`, layer by layer. */
  function ObjectsOf(ls: seq<Layer>): (r: seq<LayerObject>)
    reads ls
  {
    if ls == [] then [] else ObjectsOf(ls[..|ls| - 1]) + ls[|ls| - 1].objects
  }

  /** The number of objects in the layers `ls`. */
  function ObjectCount(ls: seq<Layer>): nat
    reads ls
  {
    if ls == [] then 0 else ObjectCount(ls[..|ls| - 1]) + |ls[|ls| - 1].objects|
  }

  lemma {:induction false} ObjectsOfLength(ls: seq<Layer>)
    ensures |ObjectsOf(ls)| == ObjectCount(ls)
  {
    if ls != [] {
      ObjectsOfLength(ls[..|ls| - 1]);
    }
  }

  /** Object `j` of layer `i` sits after all objects of the layers before `i`. */
  lemma {:induction false} ObjectsOfAt(ls: seq<Layer>, i: nat, j: nat)
    requires i < |ls| && j < |ls[i].objects|
    ensures ObjectCount(ls[..i]) + j < |ObjectsOf(ls)|
    ensures ObjectsOf(ls)[ObjectCount(ls[..i]) + j] == ls[i].objects[j]
    decreases |ls|
  {
    var n := |ls| - 1;
    var a := ObjectsOf(ls[..n]);
    assert ObjectsOf(ls) == a + ls[n].objects;
    if i < n {
      assert ls[..n][..i] == ls[..i];
      ObjectsOfAt(ls[..n], i, j);
    } else {
      assert ls[..i] == ls[..n];
      ObjectsOfLength(ls[..n]);
    }
  }

  /** Object `j` of layer `i` of `ls` is at position ObjectCount(ls[..i]) + j of `all`. */
  predicate PlacedAt(all: seq<LayerObject>, ls: seq<Layer>, i: int, j: int)
    reads ls
    requires 0 <= i < |ls| && 0 <= j < |ls[i].objects|
  {
    ObjectCount(ls[..i]) + j < |all| && all[ObjectCount(ls[..i]) + j] == ls[i].objects[j]
  }

  /**
   * `get_all_objects()` lists the objects of every layer in layer order:
   * its length is the sum of the layer object counts, and object `j` of
   * layer `i` sits after all objects of the layers before `i`.
   */
  lemma ObjectsOfLayout(ls: seq<Layer>)
    ensures |ObjectsOf(ls)| == ObjectCount(ls)
    ensures forall i, j :: 0 <= i < |ls| && 0 <= j < |ls[i].objects| ==> PlacedAt(ObjectsOf(ls), ls, i, j)
  {
    ObjectsOfLength(ls);
    forall i, j | 0 <= i < |ls| && 0 <= j < |ls[i].objects|
      ensures PlacedAt(ObjectsOf(ls), ls, i, j)
    {
      ObjectsOfAt(ls, i, j);
    }
  }

  /** The heap objects `get_all_objects()` returns have, as values, the objects of the document's value. */
  lemma {:induction false} ObjectsOfValues(ls: seq<Layer>)
    ensures ObjectValues(ObjectsOf(ls)) == AllObjects(LayerValues(ls))
  {
    if ls != [] {
      var n := |ls| - 1;
      var vs := LayerValues(ls);
      ObjectsOfValues(ls[..n]);
      assert vs[..n] == LayerValues(ls[..n]);
      assert AllObjects(vs) == AllObjects(vs[..n]) + vs[n].objects;
      assert vs[n].objects == ObjectValues(ls[n].objects);
      ObjectValuesAppend(ObjectsOf(ls[..n]), ls[n].objects);
    }
  }

  lemma ObjectValuesAppend(a: seq<LayerObject>, b: seq<LayerObject>)
    ensures ObjectValues(a + b) == ObjectValues(a) + ObjectValues(b)
  {
    var l, r := ObjectValues(a + b), ObjectValues(a) + ObjectValues(b);
    assert |l| == |r|;
    forall k | 0 <= k < |l|
      ensures l[k] == r[k]
    {
      if k < |a| {
        assert (a + b)[k] == a[k];
      } else {
        assert (a + b)[k] == b[k - |a|];
      }
    }
  }

  lemma IdsOfValues(ls: seq<Layer>)
    ensures LayerIds(LayerValues(ls)) == Ids(ls)
  {
  }

  lemma IndexByIdStep(ls: seq<Layer>, i: int)
    requires 0 <= i < |ls|
    ensures IndexById(ls[..i + 1]) == IndexById(ls[..i])[ls[i].id := ls[i]]
  {
    assert ls[..i + 1][..i] == ls[..i];
  }

  /** Indexing two lists one after the other: the second one's ids override the first one's. */
  lemma {:induction false} IndexByIdAppend(a: seq<Layer>, b: seq<Layer>)
    ensures IndexById(a + b) == IndexById(a) + IndexById(b)
    decreases |b|
  {
    if b != [] {
      var n := |b| - 1;
      assert (a + b)[..|a + b| - 1] == a + b[..n];
      IndexByIdAppend(a, b[..n]);
      UnionUpdate(IndexById(a), IndexById(b[..n]), b[n].id, b[n]);
    } else {
      assert a + b == a;
    }
  }

  lemma UnionUpdate<K, V>(a: map<K, V>, b: map<K, V>, k: K, v: V)
    ensures (a + b)[k := v] == a + b[k := v]
  {
  }

  /***** Document *****/

  class Document {
    var layers: seq<Layer>
    var layersById: map<int, Layer>
    const header: Option<Header>

    /** The index holds exactly the listed ids, each mapped to the last layer listed with it. */
    ghost predicate Valid()
      reads this
    {
      layersById == IndexById(layers)
    }

    function Value(): seq<LayerValue>
      reads this, layers, Footprint(layers)
    {
      LayerValues(layers)
    }

    /** `Document(layers, header)` */
    constructor (layers: seq<Layer>, header: Option<Header>)
      ensures this.layers == layers && this.header == header
      ensures Valid()
      ensures forall l :: l in layers ==> l.id in layersById && layersById[l.id].id == l.id
    {
      this.layers := layers;
      layersById := IndexById(layers);
      this.header := header;
      forall l | l in layers ensures l.id in Ids(layers) {
        var i :| 0 <= i < |layers| && layers[i] == l;
        assert Ids(layers)[i] == l.id;
      }
    }

    /** `add_layer(layer)` */
    method AddLayer(layer: Layer)
      modifies this
      ensures layers == old(layers) + [layer]
      ensures layersById == old(layersById)[layer.id := layer]
      ensures GetLayerById(layer.id) == layer
      ensures old(Valid()) ==> Valid()
    {
      layers := layers + [layer];
      layersById := layersById[layer.id := layer];
      assert layers[..|layers| - 1] == old(layers);
    }

    /** `add_layers(layers)`: `add_layer` on each element in order; later ids override earlier ones. */
    method AddLayers(ls: seq<Layer>)
      modifies this
      ensures layers == old(layers) + ls
      ensures layersById == old(layersById) + IndexById(ls)
      ensures old(Valid()) ==> Valid()
    {
      ghost var before := layers;
      for i := 0 to |ls|
        invariant layers == old(layers) + ls[..i]
        invariant layersById == old(layersById) + IndexById(ls[..i])
      {
        ghost var m := IndexById(ls[..i]);
        IndexByIdStep(ls, i);
        assert ls[..i + 1] == ls[..i] + [ls[i]];
        AddLayer(ls[i]);
        UnionUpdate(old(layersById), m, ls[i].id, ls[i]);
      }
      assert ls[..|ls|] == ls;
      IndexByIdAppend(before, ls);
    }

    /** `get_layer_by_id(layer_id)`; an absent id raises KeyError in the source. */
    function GetLayerById(layerId: int): (l: Layer)
      reads this
      requires layerId in layersById
      ensures Valid() ==> l in layers && l.id == layerId
      ensures Valid() ==> l == layers[LastIndex(Ids(layers), layerId)]
    {
      layersById[layerId]
    }

    /** What `get_layer_by_id` returns holds the contents of the last listed layer with that id. */
    lemma GetLayerByIdValue(layerId: int)
      requires Valid() && layerId in layersById
      ensures layerId in LayerIds(Value())
      ensures GetLayerById(layerId).Value() == LayerWithId(Value(), layerId)
    {
      IdsOfValues(layers);
    }

    /** `get_all_objects()` */
    function GetAllObjects(): (r: seq<LayerObject>)
      reads this, layers
      ensures |r| == ObjectCount(layers)
      ensures forall i, j :: 0 <= i < |layers| && 0 <= j < |layers[i].objects| ==> PlacedAt(r, layers, i, j)
    {
      ObjectsOfLayout(layers);
      ObjectsOf(layers)
    }
  }
}

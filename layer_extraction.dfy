/** The per-type layer walk and the aggregation of its records into one flat list. */
module LayerExtraction {
  import opened Wrappers
  import opened Host
  import opened Parameters

  /**
   * One row of the output: the dictionary with keys "Family Type", "Type Name",
   * "Category", "Material" and "Layer Number".
   */
  datatype Record = Record(family: string, typeName: string, category: string, material: string, layerNumber: int)

  /** The layers GetLayers() yields for a type; none when the type has no compound structure. */
  function LayersOf(t: Entity): seq<Layer> {
    if t.structure.Some? then t.structure.value.layers else []
  }

  /** The record of the layer at 0-based position idx: one record when its material resolves, none otherwise. */
  function LayerRecord(doc: Document, labels: TypeLabels, layers: seq<Layer>, idx: nat): seq<Record>
    requires idx < |layers|
  {
    match GetElement(doc, layers[idx].materialId)
    case None => []
    case Some(material) => [Record(labels.family, labels.typeName, labels.category, material.name, idx + 1)]
  }

  /** The records of the first n layers, in layer order. */
  function LayerRecordsUpTo(doc: Document, labels: TypeLabels, layers: seq<Layer>, n: nat): seq<Record>
    requires n <= |layers|
  {
    if n == 0 then [] else LayerRecordsUpTo(doc, labels, layers, n - 1) + LayerRecord(doc, labels, layers, n - 1)
  }

  /** The records one element type contributes. */
  function TypeRecords(doc: Document, t: Entity): seq<Record> {
    LayerRecordsUpTo(doc, ReadTypeLabels(t), LayersOf(t), |LayersOf(t)|)
  }

  /** The layer numbers of a list of records, in order. */
  function LayerNumbers(rs: seq<Record>): seq<int> {
    seq(|rs|, k requires 0 <= k < |rs| => rs[k].layerNumber)
  }

  /** The layer numbers of a concatenation of record lists. */
  lemma LayerNumbersAppend(xs: seq<Record>, ys: seq<Record>)
    ensures LayerNumbers(xs + ys) == LayerNumbers(xs) + LayerNumbers(ys)
  {
  }

  /**
   * Every record of the first n layers carries the type's labels, a layer number in
   * 1..n, and the name of the material its layer resolves to; the numbers strictly
   * increase, and there are at most n records.
   */
  lemma {:induction false} LayerRecordsShape(doc: Document, labels: TypeLabels, layers: seq<Layer>, n: nat)
    requires n <= |layers|
    ensures |LayerRecordsUpTo(doc, labels, layers, n)| <= n
    ensures forall k :: 0 <= k < |LayerRecordsUpTo(doc, labels, layers, n)| ==>
              var r := LayerRecordsUpTo(doc, labels, layers, n)[k];
              && 1 <= r.layerNumber <= n
              && r.family == labels.family && r.typeName == labels.typeName && r.category == labels.category
              && Resolves(doc, layers[r.layerNumber - 1].materialId)
              && r.material == doc[layers[r.layerNumber - 1].materialId].name
    ensures forall i, j :: 0 <= i < j < |LayerRecordsUpTo(doc, labels, layers, n)| ==>
              LayerRecordsUpTo(doc, labels, layers, n)[i].layerNumber < LayerRecordsUpTo(doc, labels, layers, n)[j].layerNumber
  {
    if n > 0 {
      LayerRecordsShape(doc, labels, layers, n - 1);
    }
  }

  /**
   * Layer number idx + 1 appears among the records of the first n layers exactly when
   * the material of layer idx resolves: an unresolved layer is skipped, the others are not.
   */
  lemma {:induction false} LayerPresentIffMaterialResolves(doc: Document, labels: TypeLabels, layers: seq<Layer>, n: nat)
    requires n <= |layers|
    ensures forall idx :: 0 <= idx < n ==>
              (idx + 1 in LayerNumbers(LayerRecordsUpTo(doc, labels, layers, n)) <==> Resolves(doc, layers[idx].materialId))
  {
    if n > 0 {
      LayerPresentIffMaterialResolves(doc, labels, layers, n - 1);
      LayerRecordsShape(doc, labels, layers, n - 1);
      var prev := LayerRecordsUpTo(doc, labels, layers, n - 1);
      var last := LayerRecord(doc, labels, layers, n - 1);
      LayerNumbersAppend(prev, last);
      var before, added := LayerNumbers(prev), LayerNumbers(last);
      assert added == if Resolves(doc, layers[n - 1].materialId) then [n] else [];
      assert n !in before;
      forall idx | 0 <= idx < n
        ensures idx + 1 in before + added <==> Resolves(doc, layers[idx].materialId)
      {
        if idx < n - 1 {
          assert idx + 1 !in added;
        }
      }
    }
  }

  /** When every material resolves, the records are numbered exactly 1..n, one per layer. */
  lemma {:induction false} AllResolvedNumberedContiguously(doc: Document, labels: TypeLabels, layers: seq<Layer>, n: nat)
    requires n <= |layers|
    requires forall idx :: 0 <= idx < n ==> Resolves(doc, layers[idx].materialId)
    ensures |LayerRecordsUpTo(doc, labels, layers, n)| == n
    ensures forall k :: 0 <= k < n ==> LayerRecordsUpTo(doc, labels, layers, n)[k].layerNumber == k + 1
  {
    if n > 0 {
      AllResolvedNumberedContiguously(doc, labels, layers, n - 1);
    }
  }

  /** The element types the ids name, in list order. */
  function TypesOf(doc: Document, typeIds: seq<ElementId>): seq<Entity>
    requires AllResolve(doc, typeIds)
  {
    seq(|typeIds|, i requires 0 <= i < |typeIds| => doc[typeIds[i]])
  }

  /** The concatenation of a list of record lists, in list order. */
  function Flatten(groups: seq<seq<Record>>): seq<Record> {
    if groups == [] then [] else Flatten(groups[..|groups| - 1]) + groups[|groups| - 1]
  }

  /** The records of each type, one list per type, in type order. */
  function RecordsByType(doc: Document, types: seq<Entity>): seq<seq<Record>> {
    seq(|types|, j requires 0 <= j < |types| => TypeRecords(doc, types[j]))
  }

  /** material_data: the records of every type, types in list order, layers in structure order. */
  function MaterialData(doc: Document, types: seq<Entity>): seq<Record> {
    Flatten(RecordsByType(doc, types))
  }

  /** Flatten distributes over concatenation. */
  lemma {:induction false} FlattenAppend(g: seq<seq<Record>>, h: seq<seq<Record>>)
    ensures Flatten(g + h) == Flatten(g) + Flatten(h)
    decreases |h|
  {
    if h == [] {
      assert g + h == g;
    } else {
      var h', last := h[..|h| - 1], h[|h| - 1];
      assert (g + h)[..|g + h| - 1] == g + h' && (g + h)[|g + h| - 1] == last;
      calc {
        Flatten(g + h);
        Flatten(g + h') + last;
        { FlattenAppend(g, h'); }
        Flatten(g) + Flatten(h') + last;
        Flatten(g) + Flatten(h);
      }
    }
  }

  /** The number of layers of every type in the list. */
  function LayerTotal(types: seq<Entity>): nat {
    if types == [] then 0 else LayerTotal(types[..|types| - 1]) + |LayersOf(types[|types| - 1])|
  }

  /** The record lists of a concatenation of types. */
  lemma RecordsByTypeAppend(doc: Document, a: seq<Entity>, b: seq<Entity>)
    ensures RecordsByType(doc, a + b) == RecordsByType(doc, a) + RecordsByType(doc, b)
  {
    var whole, left, right := RecordsByType(doc, a + b), RecordsByType(doc, a), RecordsByType(doc, b);
    assert |whole| == |left + right|;
    forall j | 0 <= j < |whole|
      ensures whole[j] == (left + right)[j]
    {
      if j < |a| {
        assert whole[j] == TypeRecords(doc, a[j]) == left[j];
      } else {
        assert whole[j] == TypeRecords(doc, b[j - |a|]) == right[j - |a|];
      }
    }
  }

  /** The output of a list of types is the output of its first part followed by that of the rest. */
  lemma MaterialDataAppend(doc: Document, a: seq<Entity>, b: seq<Entity>)
    ensures MaterialData(doc, a + b) == MaterialData(doc, a) + MaterialData(doc, b)
  {
    RecordsByTypeAppend(doc, a, b);
    FlattenAppend(RecordsByType(doc, a), RecordsByType(doc, b));
  }

  /** Adding one type at the end adds exactly that type's records. */
  lemma MaterialDataSnoc(doc: Document, types: seq<Entity>, t: Entity)
    ensures MaterialData(doc, types + [t]) == MaterialData(doc, types) + TypeRecords(doc, t)
  {
    MaterialDataAppend(doc, types, [t]);
    assert RecordsByType(doc, [t]) == [TypeRecords(doc, t)];
    assert Flatten([TypeRecords(doc, t)]) == TypeRecords(doc, t) by {
      assert [TypeRecords(doc, t)][..0] == [];
    }
  }

  /**
   * A type without a compound structure, or whose structure has no layers, contributes
   * no record, and the types after it contribute exactly what they would without it.
   */
  lemma SkippedTypeContributesNothing(doc: Document, a: seq<Entity>, t: Entity, b: seq<Entity>)
    requires t.structure.None? || t.structure.value.layers == []
    ensures TypeRecords(doc, t) == []
    ensures MaterialData(doc, a + [t] + b) == MaterialData(doc, a + b)
  {
    assert LayersOf(t) == [];
    var withT, withoutT := a + [t] + b, a + b;
    var front := a + [t];
    assert withT == front + b;
    MaterialDataSnoc(doc, a, t);
    assert MaterialData(doc, front) == MaterialData(doc, a);
    MaterialDataAppend(doc, front, b);
    MaterialDataAppend(doc, a, b);
  }

  /** The output never has more records than the types have layers in total. */
  lemma {:induction false} MaterialDataBound(doc: Document, types: seq<Entity>)
    ensures |MaterialData(doc, types)| <= LayerTotal(types)
  {
    if types != [] {
      var prefix, t := types[..|types| - 1], types[|types| - 1];
      assert types == prefix + [t];
      MaterialDataSnoc(doc, prefix, t);
      MaterialDataBound(doc, prefix);
      LayerRecordsShape(doc, ReadTypeLabels(t), LayersOf(t), |LayersOf(t)|);
    }
  }

  /**
   * Every record of a type carries that type's family, type and category labels, a
   * layer number within its layer list, and the name of its layer's material.
   */
  lemma TypeRecordsShape(doc: Document, t: Entity)
    ensures forall r :: r in TypeRecords(doc, t) ==>
              && r.family == ReadTypeLabels(t).family
              && r.typeName == ReadTypeLabels(t).typeName
              && r.category == ReadTypeLabels(t).category
              && 1 <= r.layerNumber <= |LayersOf(t)|
              && Resolves(doc, LayersOf(t)[r.layerNumber - 1].materialId)
              && r.material == doc[LayersOf(t)[r.layerNumber - 1].materialId].name
  {
    var recs := TypeRecords(doc, t);
    LayerRecordsShape(doc, ReadTypeLabels(t), LayersOf(t), |LayersOf(t)|);
    forall r | r in recs
      ensures r.family == ReadTypeLabels(t).family
      ensures r.typeName == ReadTypeLabels(t).typeName
      ensures r.category == ReadTypeLabels(t).category
      ensures 1 <= r.layerNumber <= |LayersOf(t)|
      ensures Resolves(doc, LayersOf(t)[r.layerNumber - 1].materialId)
      ensures r.material == doc[LayersOf(t)[r.layerNumber - 1].materialId].name
    {
      var k :| 0 <= k < |recs| && recs[k] == r;
    }
  }

  /** Every element of a flattened list comes from one of its groups. */
  lemma {:induction false} FlattenOrigin(g: seq<seq<Record>>)
    ensures forall k :: 0 <= k < |Flatten(g)| ==> exists j :: 0 <= j < |g| && Flatten(g)[k] in g[j]
  {
    if g != [] {
      var n := |g|;
      var prefix := g[..n - 1];
      FlattenOrigin(prefix);
      var out, before := Flatten(g), Flatten(prefix);
      assert out == before + g[n - 1];
      forall k | 0 <= k < |out|
        ensures exists j :: 0 <= j < n && out[k] in g[j]
      {
        if k < |before| {
          var j :| 0 <= j < n - 1 && before[k] in prefix[j];
          assert out[k] == before[k] && prefix[j] == g[j];
        } else {
          assert out[k] == g[n - 1][k - |before|];
        }
      }
      assert out == Flatten(g);
    } else {
      assert Flatten(g) == [];
    }
  }

  /** Every output record is a record of one of the listed types. */
  lemma MaterialDataOrigin(doc: Document, types: seq<Entity>)
    ensures forall k :: 0 <= k < |MaterialData(doc, types)| ==>
              exists j :: 0 <= j < |types| && MaterialData(doc, types)[k] in TypeRecords(doc, types[j])
  {
    var groups, out := RecordsByType(doc, types), MaterialData(doc, types);
    FlattenOrigin(groups);
    forall k | 0 <= k < |out|
      ensures exists j :: 0 <= j < |types| && out[k] in TypeRecords(doc, types[j])
    {
      var j :| 0 <= j < |groups| && out[k] in groups[j];
      assert groups[j] == TypeRecords(doc, types[j]);
      assert 0 <= j < |types|;
    }
  }

  /**
   * The inner loop over enumerate(layers): the layer at 0-based position idx adds one
   * record numbered idx + 1 when its material resolves, and nothing otherwise.
   */
  method AppendLayerRecords(doc: Document, labels: TypeLabels, layers: seq<Layer>, data: seq<Record>)
    returns (extended: seq<Record>)
    ensures extended == data + LayerRecordsUpTo(doc, labels, layers, |layers|)
  {
    extended := data;
    for idx := 0 to |layers|
      invariant extended == data + LayerRecordsUpTo(doc, labels, layers, idx)
    {
      var material := GetElement(doc, layers[idx].materialId);
      if material.Some? {
        extended := extended + [Record(labels.family, labels.typeName, labels.category, material.value.name, idx + 1)];
      }
    }
  }

  /**
   * The extraction loop: for each type, read its labels, skip it when it has no compound
   * structure or no layers, and append one record per layer whose material resolves.
   */
  method ExtractMaterialData(doc: Document, typeIds: seq<ElementId>) returns (data: seq<Record>)
    requires AllResolve(doc, typeIds)
    ensures data == MaterialData(doc, TypesOf(doc, typeIds))
    ensures |data| <= LayerTotal(TypesOf(doc, typeIds))
  {
    ghost var types := TypesOf(doc, typeIds);
    assert |types| == |typeIds|;
    data := [];
    for i := 0 to |typeIds|
      invariant data == MaterialData(doc, types[..i])
    {
      var elementType := doc[typeIds[i]];
      assert types[i] == elementType;
      assert types[..i + 1] == types[..i] + [elementType];
      MaterialDataSnoc(doc, types[..i], elementType);
      var labels := ReadTypeLabels(elementType);
      if elementType.structure.None? {
        continue;
      }
      var layers := elementType.structure.value.layers;
      if |layers| == 0 {
        continue;
      }
      data := AppendLayerRecords(doc, labels, layers, data);
      assert LayerRecordsUpTo(doc, labels, layers, |layers|) == TypeRecords(doc, elementType);
    }
    assert types[..|types|] == types;
    MaterialDataBound(doc, types);
  }
}

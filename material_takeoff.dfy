/**
 * The whole script: normalise the selection, resolve the distinct element types, then
 * collect one record per resolvable layer of each type.
 */
module MaterialTakeoff {
  import opened Wrappers
  import opened Host
  import opened Parameters
  import opened Selection
  import opened TypeResolution
  import opened LayerExtraction

  /** The value OUT receives for a document and an input selection, or the ValueError raised. */
  function Takeoff(doc: Document, sel: Input): Result<seq<Record>, SelectionError> {
    match Normalize(sel)
    case Failure(e) => Failure(e)
    case Success(elements) =>
      var typeIds := Dedup(ResolvedIds(doc, elements));
      ResolvedTypesResolve(doc, elements);
      Success(MaterialData(doc, TypesOf(doc, typeIds)))
  }

  /**
   * The script body. A null or empty selection fails before any extraction; otherwise
   * the output is the concatenation, over the distinct types in first-seen order, of
   * each type's records.
   */
  method Run(doc: Document, sel: Input) returns (r: Result<seq<Record>, SelectionError>)
    ensures r == Takeoff(doc, sel)
    ensures r.Failure? <==> sel.Null? || sel == Many([])
  {
    var normalized := Normalize(sel);
    if normalized.Failure? {
      return Failure(normalized.error);
    }
    var typeIds := ResolveTypes(doc, normalized.value);
    var data := ExtractMaterialData(doc, typeIds);
    return Success(data);
  }

  /**
   * Selected elements that all share one type produce that type's records exactly once,
   * however many elements there are.
   */
  lemma SharedTypeProcessedOnce(doc: Document, items: seq<Item>, t: ElementId)
    requires |items| > 0
    requires forall x :: x in items ==> ElementTypeId(doc, x) == Some(t)
    ensures Resolves(doc, t)
    ensures Takeoff(doc, Many(items)) == Success(TypeRecords(doc, doc[t]))
  {
    assert ElementTypeId(doc, items[0]) == Some(t);
    SharedTypeResolvedOnce(doc, items, t);
    ResolvedTypesResolve(doc, items);
    var one: seq<Entity> := [doc[t]];
    assert TypesOf(doc, [t]) == one;
    assert Takeoff(doc, Many(items)) == Success(MaterialData(doc, one));
    assert [] + one == one;
    MaterialDataSnoc(doc, [], doc[t]);
    assert MaterialData(doc, []) == [];
    assert MaterialData(doc, one) == TypeRecords(doc, doc[t]);
  }

  const WallTypeId: ElementId := ElementId(10)
  const ConcreteId: ElementId := ElementId(20)
  const DanglingMaterialId: ElementId := ElementId(99)

  /** A wall type with two layers: concrete, then a material id the document does not hold. */
  const WallType: Entity := Entity(
    "Generic", None,
    map[SymbolFamilyNameParam := Present(true, "Basic Wall"), SymbolNameParam := Present(true, "Generic")],
    Some("Walls"),
    Some(CompoundStructure([Layer(ConcreteId), Layer(DanglingMaterialId)])))

  const Concrete: Entity := Entity("Concrete", None, map[], Some("Materials"), None)

  const ScenarioDocument: Document := map[WallTypeId := WallType, ConcreteId := Concrete]

  /** A selected wall instance of the scenario's wall type. */
  function Wall(name: string): Entity {
    Entity(name, Some(WallTypeId), map[], Some("Walls"), None)
  }

  /** The wall type yields one record, for its concrete layer; its second layer is skipped. */
  lemma WallTypeRecords()
    ensures TypeRecords(ScenarioDocument, WallType) == [Record("Basic Wall", "Generic", "Walls", "Concrete", 1)]
  {
    var doc := ScenarioDocument;
    var labels := TypeLabels("Basic Wall", "Generic", "Walls");
    assert ReadTypeLabels(WallType) == labels;
    var layers := [Layer(ConcreteId), Layer(DanglingMaterialId)];
    assert LayersOf(WallType) == layers;
    assert GetElement(doc, ConcreteId) == Some(Concrete);
    assert GetElement(doc, DanglingMaterialId) == None;
    var first := [Record("Basic Wall", "Generic", "Walls", "Concrete", 1)];
    assert LayerRecordsUpTo(doc, labels, layers, 1) == first;
    assert LayerRecord(doc, labels, layers, 1) == [];
    assert TypeRecords(doc, WallType) == LayerRecordsUpTo(doc, labels, layers, 2);
    assert LayerRecordsUpTo(doc, labels, layers, 2) == first + [];
    assert first + [] == first;
  }

  /**
   * Two selected walls of the same type whose second layer has no material: exactly one
   * record, for layer 1, and none for layer 2.
   */
  lemma SharedTypeWithDanglingMaterial()
    ensures Takeoff(ScenarioDocument, Many([Elem(Wall("A")), Elem(Wall("B"))]))
         == Success([Record("Basic Wall", "Generic", "Walls", "Concrete", 1)])
  {
    var doc := ScenarioDocument;
    var items := [Elem(Wall("A")), Elem(Wall("B"))];
    assert Resolves(doc, WallTypeId) && doc[WallTypeId] == WallType;
    assert forall x :: x in items ==> ElementTypeId(doc, x) == Some(WallTypeId);
    SharedTypeProcessedOnce(doc, items, WallTypeId);
    WallTypeRecords();
  }
}

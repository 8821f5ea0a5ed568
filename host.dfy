/**
 * An abstract model of the parts of a Revit document that the takeoff script reads.
 * Every host object is an element: a document maps element ids to entities, and one
 * entity record serves as an instance element (it has a type id), as an element type
 * (it has name parameters, a category and possibly a compound structure) and as a
 * material (it has a name).
 */
module Host {
  import opened Wrappers

  /** Revit's ElementId. The distinguished InvalidElementId carries the value -1. */
  datatype ElementId = ElementId(value: int) {
    /**
     * The type id's IsNull test. Assumed here to hold exactly for InvalidElementId;
     * a host on which reading IsNull raises is outside this model.
     */
    predicate IsNull() {
      value == -1
    }
  }

  const InvalidElementId: ElementId := ElementId(-1)

  /** The two built-in parameters the script reads from an element type. */
  datatype BuiltInParameter = SymbolFamilyNameParam | SymbolNameParam

  /**
   * What element.get_Parameter(p) does for a parameter the element knows about:
   * it returns a parameter (which may or may not hold a value), or it raises.
   * A parameter missing from an entity's map is one for which get_Parameter returns None.
   */
  datatype ParameterSlot =
    | Present(hasValue: bool, text: string)
    | LookupFails

  /** One layer of a compound structure; only its material id is read. */
  datatype Layer = Layer(materialId: ElementId)

  /** CompoundStructure.GetLayers(), in structure order. */
  datatype CompoundStructure = CompoundStructure(layers: seq<Layer>)

  datatype Entity = Entity(
    name: string,                                 // Element.Name
    typeId: Option<ElementId>,                    // Element.GetTypeId(), None when it returns null
    parameters: map<BuiltInParameter, ParameterSlot>,
    category: Option<string>,                     // Element.Category.Name, None when Category is null
    structure: Option<CompoundStructure>)         // GetCompoundStructure(), None when it returns null

  type Document = map<ElementId, Entity>

  /** doc.GetElement(id) finds an element. */
  predicate Resolves(doc: Document, id: ElementId) {
    !id.IsNull() && id in doc
  }

  /** Every id in the list names an element the document finds. */
  predicate AllResolve(doc: Document, ids: seq<ElementId>) {
    forall i :: 0 <= i < |ids| ==> Resolves(doc, ids[i])
  }

  /** doc.GetElement(id): the element, or None for InvalidElementId and for unknown ids. */
  function GetElement(doc: Document, id: ElementId): Option<Entity> {
    if Resolves(doc, id) then Some(doc[id]) else None
  }
}

/** Normalisation of the script's input selection. */
module Selection {
  import opened Wrappers
  import opened Host

  /**
   * One entry of the selection. Elem is a Revit element; Other is anything that has
   * no GetTypeId (None inside a list, a number, a nested list, a tuple, ...).
   */
  datatype Item = Elem(e: Entity) | Other

  /** The raw input: null, a Python list, or a single value that is not a list. */
  datatype Input = Null | Single(item: Item) | Many(items: seq<Item>)

  /** The two ValueError conditions of the selection check. */
  datatype SelectionError = NullSelection | EmptySelection

  /**
   * A null input fails; a list is taken as it is and a non-list value becomes a
   * one-element list; a list that is empty fails.
   */
  function Normalize(sel: Input): (r: Result<seq<Item>, SelectionError>)
    ensures r.Failure? <==> sel.Null? || sel == Many([])
    ensures r == Failure(NullSelection) <==> sel.Null?
    ensures r.Success? ==> |r.value| > 0
    ensures sel.Single? ==> r == Success([sel.item])
    ensures sel.Many? && sel.items != [] ==> r == Success(sel.items)
  {
    match sel
    case Null => Failure(NullSelection)
    case Single(item) => Success([item])
    case Many(items) => if items == [] then Failure(EmptySelection) else Success(items)
  }
}

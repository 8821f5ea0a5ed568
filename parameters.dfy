/** Safe attribute reads with defaults: get_parameter_value and the type labels built from it. */
module Parameters {
  import opened Wrappers
  import opened Host

  const UnknownFamily: string := "Unknown Family"
  const UnknownType: string := "Unknown Type"
  const UnknownCategory: string := "Unknown Category"

  /** The parameter exists on the entity, the lookup does not raise and the parameter has a value. */
  predicate HasValue(e: Entity, p: BuiltInParameter) {
    p in e.parameters && e.parameters[p].Present? && e.parameters[p].hasValue
  }

  /**
   * get_parameter_value: the parameter's string when it exists and has a value; the
   * given default when the parameter is missing, has no value or its lookup raises.
   */
  function ParameterValue(e: Entity, p: BuiltInParameter, fallback: string): (r: string)
    ensures HasValue(e, p) ==> r == e.parameters[p].text
    ensures !HasValue(e, p) ==> r == fallback
  {
    if p !in e.parameters then
      fallback
    else
      match e.parameters[p]
      case LookupFails => fallback
      case Present(hasValue, text) => if hasValue then text else fallback
  }

  /** The family, type and category names every record of one element type carries. */
  datatype TypeLabels = TypeLabels(family: string, typeName: string, category: string)

  /** The three labels of an element type, each falling back to its "Unknown ..." default. */
  function ReadTypeLabels(t: Entity): (r: TypeLabels)
    ensures r.family == if HasValue(t, SymbolFamilyNameParam) then t.parameters[SymbolFamilyNameParam].text else UnknownFamily
    ensures r.typeName == if HasValue(t, SymbolNameParam) then t.parameters[SymbolNameParam].text else UnknownType
    ensures r.category == if t.category.Some? then t.category.value else UnknownCategory
  {
    TypeLabels(
      ParameterValue(t, SymbolFamilyNameParam, UnknownFamily),
      ParameterValue(t, SymbolNameParam, UnknownType),
      if t.category.Some? then t.category.value else UnknownCategory)
  }
}

# Material takeoff with layers: a Dafny model

`Material_Takeoff_With_Layer.py` is a Dynamo script for Revit. It takes a selection of
elements and resolves each element to its element type. Each type is kept once, in the
order it is first seen. The script then walks the layers of each type's compound
structure and emits one record per layer whose material the document can find. A record
holds the type's family name, type name, category name, the material's name and the
1-based layer number. All records go into one flat list, `OUT`.

This project models that pipeline against an abstract host.

- **Host.** A document is a map from element ids to entities (`Host.Document`). One
  `Host.Entity` record serves three roles:
  - an instance element, with an optional type id;
  - an element type, with the two built-in name parameters, an optional category name
    and an optional compound structure;
  - a material, with a name.

  `Host.GetElement` returns nothing for `InvalidElementId` (-1) and for ids the document
  does not hold.
- **`Parameters`.** `get_parameter_value` becomes `Parameters.ParameterValue`. The
  script reads the three labels of a type with it, through `Parameters.ReadTypeLabels`.
  A parameter lookup can fail in three ways, each giving the default:
  - the parameter is absent;
  - it has no value;
  - its lookup raises (`ParameterSlot.LookupFails`).
- **`Selection`.** This normalises the input. A null input fails, a non-list value is
  wrapped as a one-element list, and an empty list fails. Failures are a `Result` that
  carries the two `ValueError` conditions.
- **`TypeResolution`.** The de-duplication loop is the method `ResolveTypes`. It is
  proved equal to `Dedup(ResolvedIds(..))`:
  - `ResolvedIds` lists each element's resolvable type id, in element order;
  - `Dedup` keeps the first occurrence of each id.

  A type's identity is its element id. An entry that has no `GetTypeId` (the call
  raises) is the `Item.Other` case, and it is skipped like an element without a valid
  type.
- **`LayerExtraction`.** The nested extraction loops are two methods:
  - `ExtractMaterialData` is the loop over types;
  - `AppendLayerRecords` is the loop over `enumerate(layers)`.

  They are proved equal to `MaterialData`, the concatenation in type order of each
  type's `TypeRecords`.
- **`MaterialTakeoff`.** `Run` chains the three steps and is proved equal to the
  function `Takeoff`. The module also includes a small concrete scenario: two walls of
  one type, one of whose two layers points at a missing material.

## Model

| member | source | states |
|---|---|---|
| Parameters.ParameterValue | Material_Takeoff_With_Layer.py:34-52 | The parameter's string when the parameter exists, its lookup does not raise and it has a value; the given default in every other case (missing, no value, lookup raises). |
| Parameters.ReadTypeLabels | Material_Takeoff_With_Layer.py:96-98 | Family and type names are the SYMBOL_FAMILY_NAME_PARAM / SYMBOL_NAME_PARAM strings when they have a value, else "Unknown Family" / "Unknown Type"; the category is the category's name, or "Unknown Category" when the type has none. |
| Selection.Normalize | Material_Takeoff_With_Layer.py:63-73 | Fails exactly for a null input or an empty list, with the null-selection error exactly for null; a non-list value becomes the one-element list holding it; a non-empty list is kept as it is; a success is never empty. |
| TypeResolution.ElementTypeId | Material_Takeoff_With_Layer.py:78-88 | An element contributes a type id exactly when it has GetTypeId, its type id is non-null and not InvalidElementId, and the document finds that type; the contributed id is the element's own type id. |
| TypeResolution.DedupMembers | Material_Takeoff_With_Layer.py:82-83 | The de-duplicated list holds exactly the values of the original list. |
| TypeResolution.DedupDistinct | Material_Takeoff_With_Layer.py:82-83 | The de-duplicated list never lists a value twice. |
| TypeResolution.DedupFirstOccurrenceOrder | Material_Takeoff_With_Layer.py:76-83 | The de-duplicated values appear in the order of their first occurrence in the original list. |
| TypeResolution.ResolvedIdsMembership | Material_Takeoff_With_Layer.py:77-83 | A type id is collected exactly when some selected element contributes it. |
| TypeResolution.UnresolvableElementAddsNothing | Material_Takeoff_With_Layer.py:79-88 | An element without GetTypeId, with a null or invalid type id, or whose type the document does not find, wherever it stands in the selection, leaves the resolved type list exactly as if it were absent: later elements are still processed. |
| TypeResolution.ResolvedTypesResolve | Material_Takeoff_With_Layer.py:81-83 | Every type in the resolved list is one the document finds. |
| TypeResolution.SharedTypeResolvedOnce | Material_Takeoff_With_Layer.py:76-83 | When every selected element has the same type t, the resolved list is exactly [t]. |
| TypeResolution.ResolveTypes | Material_Takeoff_With_Layer.py:76-88 | The loop's list equals the first-occurrence de-duplication of the contributed type ids; it has no duplicates, holds a type exactly when some element contributes it, and every type in it resolves. |
| LayerExtraction.LayerRecordsShape | Material_Takeoff_With_Layer.py:110-125 | Within one type, each record carries the type's labels, a layer number in 1..n, and the name of the material its layer resolves to; layer numbers strictly increase; there are at most n records for n layers. |
| LayerExtraction.LayerPresentIffMaterialResolves | Material_Takeoff_With_Layer.py:110-122 | Layer number idx+1 appears among a type's records exactly when the material of layer idx resolves: an unresolved layer is skipped and the other layers keep their records. |
| LayerExtraction.AllResolvedNumberedContiguously | Material_Takeoff_With_Layer.py:110-120 | When every layer's material resolves, there is one record per layer and the numbers are exactly 1..N in order. |
| LayerExtraction.TypeRecordsShape | Material_Takeoff_With_Layer.py:96-125 | Every record of a type carries that type's family, type and category labels, a layer number within its layer list and the name of the resolved material of that layer. |
| LayerExtraction.SkippedTypeContributesNothing | Material_Takeoff_With_Layer.py:100-108 | A type with no compound structure or an empty layer list contributes no record, and the types after it contribute exactly what they would without it. |
| LayerExtraction.MaterialDataAppend | Material_Takeoff_With_Layer.py:90-130 | The output for a concatenation of type lists is the output for the first part followed by the output for the second: types in list order, each type's records kept together. |
| LayerExtraction.MaterialDataSnoc | Material_Takeoff_With_Layer.py:93-125 | Processing one more type appends exactly that type's records. |
| LayerExtraction.MaterialDataBound | Material_Takeoff_With_Layer.py:90-130 | The total number of records is at most the sum of the types' layer counts. |
| LayerExtraction.MaterialDataOrigin | Material_Takeoff_With_Layer.py:90-130 | Every output record is a record of one of the processed types. |
| LayerExtraction.AppendLayerRecords | Material_Takeoff_With_Layer.py:110-125 | The layer loop appends to the given list exactly the type's records for all its layers, in layer order. |
| LayerExtraction.ExtractMaterialData | Material_Takeoff_With_Layer.py:90-130 | The extraction loop's list equals the concatenation, in type order, of each type's records, and its length is at most the total layer count. |
| MaterialTakeoff.Run | Material_Takeoff_With_Layer.py:62-130 | The script's result equals the takeoff function of the document and selection, and it fails exactly for a null selection or an empty list. |
| MaterialTakeoff.SharedTypeProcessedOnce | Material_Takeoff_With_Layer.py:76-130 | A non-empty selection whose elements all share one type yields that type's records exactly once. |
| MaterialTakeoff.WallTypeRecords | Material_Takeoff_With_Layer.py:110-122 | A two-layer wall type whose second material is missing yields one record, numbered 1, for its first layer. |
| MaterialTakeoff.SharedTypeWithDanglingMaterial | Material_Takeoff_With_Layer.py:62-130 | Two selected walls of that type give exactly that one record. |

## Left out

- Document acquisition through `DocumentManager`, with its `InvalidOperationException` (Material_Takeoff_With_Layer.py:54-60), and the CLR imports. These are host plumbing; the document is a parameter.
- `UnwrapElement` and the Dynamo globals `IN` / `OUT`. The selection is a parameter and the output is the return value. Unwrapping is taken as the identity on the modelled items.
- All `print` logging of warnings and errors, and the wording of the error messages. None of it affects the output. The two selection errors keep only their kind.
- Type identity: the script's `element_type not in element_types` compares the objects the host returns. The model compares element ids, so a type is the same type exactly when its id is.
- Input values: any non-list value, such as a tuple or a single element, is wrapped as one item. Entries without `GetTypeId` are the single case `Item.Other`, not distinguished further.
- Arbitrary host exceptions are modelled only where the script's behaviour depends on them:
  - `GetTypeId` raising is `Item.Other`;
  - `get_Parameter` raising is `ParameterSlot.LookupFails`.

  A type whose `GetCompoundStructure` raises is caught by the outer handler, which gives the same output as a type with no structure, and the model has only the latter. Exceptions raised while reading `Category.Name`, `GetLayers` or `Material.Name`, and per-layer exceptions, are not modelled. The possibly unbound `type_name` in the outer handler's message is diagnostic only.
- `type_id.IsNull` is taken to mean "equals `InvalidElementId`" (`Host.ElementId.IsNull`). A host on which reading `IsNull` raises is not modelled. On such a host the handler would skip every element that has a type id, and the output would always be empty.
- `Parameter.AsString()` returning null for parameters that are not string-valued: parameter values are modelled as strings.
- Truthiness of host objects: a found material, a found type and a non-null structure are taken as truthy. An empty layer list is taken as falsy.

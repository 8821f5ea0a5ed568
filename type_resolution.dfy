/** Resolution of the selected elements to their distinct element types, in first-seen order. */
module TypeResolution {
  import opened Wrappers
  import opened Host
  import opened Selection

  /**
   * The type id one selected element contributes: none when the element has no GetTypeId,
   * when its type id is null or InvalidElementId, or when the document does not find it.
   */
  function ElementTypeId(doc: Document, item: Item): (r: Option<ElementId>)
    ensures r.Some? <==> item.Elem? && item.e.typeId.Some? && Resolves(doc, item.e.typeId.value)
    ensures r.Some? ==> r.value == item.e.typeId.value
  {
    match item
    case Other => None
    case Elem(e) =>
      match e.typeId
      case None => None
      case Some(id) => if !id.IsNull() && GetElement(doc, id).Some? then Some(id) else None
  }

  /** The type ids of the elements, in element order, repetitions included. */
  function ResolvedIds(doc: Document, items: seq<Item>): seq<ElementId> {
    if items == [] then
      []
    else
      var last := ElementTypeId(doc, items[|items| - 1]);
      ResolvedIds(doc, items[..|items| - 1]) + if last.Some? then [last.value] else []
  }

  predicate Distinct<T(==)>(s: seq<T>) {
    forall i, j :: 0 <= i < j < |s| ==> s[i] != s[j]
  }

  /** The position of the first occurrence of x in s. */
  function FirstIndex<T(==)>(s: seq<T>, x: T): (k: nat)
    requires x in s
    ensures k < |s| && s[k] == x && x !in s[..k]
  {
    if s[0] == x then 0
    else
      var k := FirstIndex(s[1..], x);
      assert s[..k + 1] == [s[0]] + s[1..][..k];
      k + 1
  }

  /** The first occurrence of every value of s, in the order of s. */
  function Dedup(s: seq<ElementId>): seq<ElementId> {
    if s == [] then
      []
    else
      var kept := Dedup(s[..|s| - 1]);
      if s[|s| - 1] in kept then kept else kept + [s[|s| - 1]]
  }

  /** Dedup of a sequence extended by one value. */
  lemma DedupSnoc(s: seq<ElementId>, y: ElementId)
    ensures Dedup(s + [y]) == if y in Dedup(s) then Dedup(s) else Dedup(s) + [y]
  {
  }

  /** Dedup keeps every value of s and adds none. */
  lemma {:induction false} DedupMembers(s: seq<ElementId>)
    ensures forall x :: x in Dedup(s) <==> x in s
  {
    if s != [] {
      var p, y := s[..|s| - 1], s[|s| - 1];
      assert s == p + [y];
      DedupSnoc(p, y);
      DedupMembers(p);
    }
  }

  /** Dedup never lists a value twice. */
  lemma {:induction false} DedupDistinct(s: seq<ElementId>)
    ensures Distinct(Dedup(s))
  {
    if s != [] {
      var p, y := s[..|s| - 1], s[|s| - 1];
      assert s == p + [y];
      DedupSnoc(p, y);
      DedupDistinct(p);
    }
  }

  /** Any position of x that has no earlier x is its first index. */
  lemma FirstIndexUnique<T>(s: seq<T>, x: T, k: nat)
    requires k < |s| && s[k] == x && x !in s[..k]
    ensures FirstIndex(s, x) == k
  {
  }

  /** Appending a value does not move the first occurrence of a value already present. */
  lemma FirstIndexSnoc<T>(s: seq<T>, y: T, x: T)
    requires x in s + [y]
    ensures x in s ==> FirstIndex(s + [y], x) == FirstIndex(s, x)
    ensures x !in s ==> FirstIndex(s + [y], x) == |s|
  {
    if x in s {
      var k := FirstIndex(s, x);
      assert (s + [y])[..k] == s[..k];
      FirstIndexUnique(s + [y], x, k);
    } else {
      assert (s + [y])[..|s|] == s;
      FirstIndexUnique(s + [y], x, |s|);
    }
  }

  /** Dedup lists its values in the order of their first occurrence in s. */
  lemma {:induction false} DedupFirstOccurrenceOrder(s: seq<ElementId>)
    ensures forall i, j :: 0 <= i < j < |Dedup(s)| ==>
              Dedup(s)[i] in s && Dedup(s)[j] in s && FirstIndex(s, Dedup(s)[i]) < FirstIndex(s, Dedup(s)[j])
  {
    if s != [] {
      var p, y := s[..|s| - 1], s[|s| - 1];
      assert s == p + [y];
      DedupSnoc(p, y);
      DedupMembers(p);
      DedupFirstOccurrenceOrder(p);
      var kept, d := Dedup(p), Dedup(s);
      forall i, j | 0 <= i < j < |d|
        ensures d[i] in s && d[j] in s && FirstIndex(s, d[i]) < FirstIndex(s, d[j])
      {
        assert d[i] in kept by {
          assert d == kept || d == kept + [y];
        }
        FirstIndexSnoc(p, y, d[i]);
        FirstIndexSnoc(p, y, d[j]);
        if j < |kept| {
          assert d[i] == kept[i] && d[j] == kept[j];
        } else {
          assert d[j] == y && y !in kept;
          assert FirstIndex(p, d[i]) < |p|;
        }
      }
      assert d == Dedup(s);
    } else {
      assert |Dedup(s)| == 0;
    }
  }

  /** ResolvedIds distributes over concatenation of the selection. */
  lemma {:induction false} ResolvedIdsAppend(doc: Document, a: seq<Item>, b: seq<Item>)
    ensures ResolvedIds(doc, a + b) == ResolvedIds(doc, a) + ResolvedIds(doc, b)
    decreases |b|
  {
    if b == [] {
      assert a + b == a;
    } else {
      var b' := b[..|b| - 1];
      assert (a + b)[..|a + b| - 1] == a + b';
      assert (a + b)[|a + b| - 1] == b[|b| - 1];
      ResolvedIdsAppend(doc, a, b');
    }
  }

  /**
   * An element that contributes no type id (no GetTypeId, a null or invalid type id,
   * a type the document does not find) changes nothing, wherever it stands: the
   * elements after it are resolved exactly as if it were absent.
   */
  lemma UnresolvableElementAddsNothing(doc: Document, a: seq<Item>, x: Item, b: seq<Item>)
    requires ElementTypeId(doc, x).None?
    ensures ResolvedIds(doc, a + [x] + b) == ResolvedIds(doc, a + b)
    ensures Dedup(ResolvedIds(doc, a + [x] + b)) == Dedup(ResolvedIds(doc, a + b))
  {
    ResolvedIdsAppend(doc, a + [x], b);
    ResolvedIdsAppend(doc, a, [x]);
    ResolvedIdsAppend(doc, a, b);
    assert [x][..0] == [];
  }

  /** A type id occurs in ResolvedIds exactly when some selected element contributes it. */
  lemma {:induction false} ResolvedIdsMembership(doc: Document, items: seq<Item>, t: ElementId)
    ensures t in ResolvedIds(doc, items) <==> exists i :: 0 <= i < |items| && ElementTypeId(doc, items[i]) == Some(t)
  {
    if items != [] {
      var p := items[..|items| - 1];
      ResolvedIdsMembership(doc, p, t);
      if exists i :: 0 <= i < |p| && ElementTypeId(doc, p[i]) == Some(t) {
        var i :| 0 <= i < |p| && ElementTypeId(doc, p[i]) == Some(t);
        assert items[i] == p[i];
      }
      if exists i :: 0 <= i < |items| && ElementTypeId(doc, items[i]) == Some(t) {
        var i :| 0 <= i < |items| && ElementTypeId(doc, items[i]) == Some(t);
        if i < |p| {
          assert p[i] == items[i];
        }
      }
    }
  }

  /** A non-empty sequence holding only t de-duplicates to [t]. */
  lemma {:induction false} DedupOfRepeats(s: seq<ElementId>, t: ElementId)
    requires |s| > 0
    requires forall i :: 0 <= i < |s| ==> s[i] == t
    ensures Dedup(s) == [t]
  {
    var p := s[..|s| - 1];
    assert s == p + [s[|s| - 1]];
    DedupSnoc(p, t);
    if p != [] {
      DedupOfRepeats(p, t);
    }
  }

  /** Every resolved type id names an element type the document finds. */
  lemma ResolvedTypesResolve(doc: Document, items: seq<Item>)
    ensures AllResolve(doc, Dedup(ResolvedIds(doc, items)))
  {
    var types := Dedup(ResolvedIds(doc, items));
    DedupMembers(ResolvedIds(doc, items));
    forall i | 0 <= i < |types|
      ensures Resolves(doc, types[i])
    {
      ResolvedIdsMembership(doc, items, types[i]);
    }
  }

  /** When every selected element has type t, the resolved type list is exactly [t]. */
  lemma {:induction false} SharedTypeResolvedOnce(doc: Document, items: seq<Item>, t: ElementId)
    requires |items| > 0
    requires forall x :: x in items ==> ElementTypeId(doc, x) == Some(t)
    ensures Dedup(ResolvedIds(doc, items)) == [t]
  {
    var r := ResolvedIds(doc, items);
    forall i | 0 <= i < |r|
      ensures r[i] == t
    {
      ResolvedIdsMembership(doc, items, r[i]);
    }
    var last := items[|items| - 1];
    assert ElementTypeId(doc, last) == Some(t);
    assert t in r;
    DedupOfRepeats(r, t);
  }

  /**
   * The type resolution loop: each element's type id is looked up and appended unless
   * it is already in the list. The result lists the distinct resolvable types, each
   * once, in the order of their first appearance among the elements.
   */
  method ResolveTypes(doc: Document, elements: seq<Item>) returns (types: seq<ElementId>)
    ensures types == Dedup(ResolvedIds(doc, elements))
    ensures Distinct(types)
    ensures forall t :: t in types <==> exists i :: 0 <= i < |elements| && ElementTypeId(doc, elements[i]) == Some(t)
    ensures AllResolve(doc, types)
  {
    types := [];
    for i := 0 to |elements|
      invariant types == Dedup(ResolvedIds(doc, elements[..i]))
    {
      ghost var seen := ResolvedIds(doc, elements[..i]);
      ghost var contributed := ElementTypeId(doc, elements[i]);
      assert elements[..i + 1][..i] == elements[..i];
      if contributed.Some? {
        assert ResolvedIds(doc, elements[..i + 1]) == seen + [contributed.value];
        DedupSnoc(seen, contributed.value);
      } else {
        assert ResolvedIds(doc, elements[..i + 1]) == seen;
      }
      match elements[i]
      case Other =>
        // GetTypeId raises; the handler skips the element
      case Elem(e) =>
        if e.typeId.Some? && !e.typeId.value.IsNull() {
          var elementType := GetElement(doc, e.typeId.value);
          if elementType.Some? && e.typeId.value !in types {
            types := types + [e.typeId.value];
          }
        }
    }
    assert elements[..|elements|] == elements;
    DedupDistinct(ResolvedIds(doc, elements));
    DedupMembers(ResolvedIds(doc, elements));
    forall t ensures t in types <==> exists i :: 0 <= i < |elements| && ElementTypeId(doc, elements[i]) == Some(t) {
      ResolvedIdsMembership(doc, elements, t);
    }
    ResolvedTypesResolve(doc, elements);
  }
}

/** The framework elements the parameter layer hangs its annotations on,
    reduced to what the layer reads of them: the parent link, the
    finstructable-group flag, the ready and deleted flags and the ordered
    child links. Elements are identified by number; a parent is always
    created before its children, so its number is smaller. */
module Elements {
  import opened Common

  type ElementId = nat

  datatype Element = Element(
    parent: Option<ElementId>,
    finstructableGroup: bool,
    ready: bool,
    deleted: bool,
    children: seq<ElementId>)

  type ElementTree = map<ElementId, Element>

  /** The element that is the root of the runtime environment. */
  const RuntimeElement: ElementId := 0

  /** Parents exist and precede their children. */
  ghost predicate ValidTree(es: ElementTree) {
    forall e :: e in es && es[e].parent.Some? ==>
      es[e].parent.value in es && es[e].parent.value < e
  }

  function Parent(es: ElementTree, e: ElementId): (r: Option<ElementId>)
    ensures r.Some? ==> e in es && r == es[e].parent
    ensures ValidTree(es) && r.Some? ==> r.value < e && r.value in es
  {
    if e in es then es[e].parent else None
  }

  /** `a` is `e` or one of its ancestors. */
  ghost predicate AncestorOrSelf(es: ElementTree, a: ElementId, e: ElementId)
    decreases e
  {
    a == e || (Parent(es, e).Some? && Parent(es, e).value < e && AncestorOrSelf(es, a, Parent(es, e).value))
  }

  /** `a` is a proper ancestor of `e`. */
  ghost predicate StrictAncestor(es: ElementTree, a: ElementId, e: ElementId) {
    Parent(es, e).Some? && Parent(es, e).value < e && AncestorOrSelf(es, a, Parent(es, e).value)
  }

  lemma {:induction false} AncestorBelow(es: ElementTree, a: ElementId, e: ElementId)
    requires AncestorOrSelf(es, a, e)
    decreases e
    ensures a <= e
  {
    if a != e {
      AncestorBelow(es, a, Parent(es, e).value);
    }
  }

  function IsFinstructableGroup(es: ElementTree, e: ElementId): bool {
    e in es && es[e].finstructableGroup
  }

  function IsReady(es: ElementTree, e: ElementId): bool {
    e in es && es[e].ready
  }

  /** `GetParentWithFlags(FINSTRUCTABLE_GROUP)`: the nearest proper ancestor
      that is a finstructable group. */
  function ParentGroup(es: ElementTree, e: ElementId): (r: Option<ElementId>)
    requires ValidTree(es)
    decreases e
    ensures r.Some? ==> StrictAncestor(es, r.value, e) && IsFinstructableGroup(es, r.value)
    ensures r.Some? ==> forall a: ElementId :: StrictAncestor(es, a, e) && a > r.value ==> !IsFinstructableGroup(es, a)
    ensures r.None? ==> forall a: ElementId :: StrictAncestor(es, a, e) ==> !IsFinstructableGroup(es, a)
  {
    match Parent(es, e)
    case None => None
    case Some(p) =>
      if IsFinstructableGroup(es, p) then
        AncestorsAreSmaller(es, p);
        Some(p)
      else ParentGroup(es, p)
  }

  lemma AncestorsAreSmaller(es: ElementTree, p: ElementId)
    ensures forall a: ElementId :: AncestorOrSelf(es, a, p) ==> a <= p
  {
    forall a: ElementId | AncestorOrSelf(es, a, p) ensures a <= p {
      AncestorBelow(es, a, p);
    }
  }

  lemma StrictAncestorsAreSmaller(es: ElementTree)
    ensures forall x: ElementId, y: ElementId :: StrictAncestor(es, x, y) ==> x < y
  {
    forall x: ElementId, y: ElementId | StrictAncestor(es, x, y) ensures x < y {
      AncestorBelow(es, x, Parent(es, y).value);
    }
  }
}

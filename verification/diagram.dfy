/**
 * The part of the host's diagram model that the two overlays read and change:
 * the root's children, each with an id, a type, optional bounds, render
 * arguments and, for an edge, its editable label and the mining labels
 * attached to it.
 */
module Diagram {
  import opened Optional
  import opened Geometry

  /**
   * The classes and type tags the overlays test for. `instanceof Edge` and
   * `e.type === MiningLabel.TYPE` both become a comparison of `kind`.
   */
  datatype Kind =
    | Edge
    | ActivityNode
    | EventNode
    | GatewayNode
    | MiningLabelType
    | DiagramCaptionType
    | OtherKind(tag: string)

  /** An edge's editable label (a GLabel): its text and its position. */
  datatype Label = Label(text: string, position: Point)

  /**
   * A MiningLabel: the number it shows, the normalised value that picks its
   * size and colour, and the routed points of the edge it was placed against.
   */
  datatype MiningLabel = MiningLabel(labelValue: real, relativeValue: real, segments: seq<Point>)

  datatype Role = Start | End

  /** A caption's text, kept unformatted: what the template strings are built from. */
  datatype CaptionText =
    | Title(processName: string)
    | InstanceCount(numberOfInstances: int, periodStart: string, periodEnd: string)

  /** A DiagramCaption: the anchor rectangle it is placed against, its text and its role. */
  datatype Caption = Caption(anchor: Bounds, text: CaptionText, role: Role)

  /**
   * A child of the model root. `bounds` is present exactly for bounds-aware
   * elements; `editableLabel` and `miningLabels` are used by edges, `caption`
   * by captions.
   */
  datatype Element = Element(
    id: string,
    kind: Kind,
    bounds: Option<Bounds>,
    args: map<string, string>,
    editableLabel: Option<Label>,
    miningLabels: seq<MiningLabel>,
    caption: Option<Caption>)

  /** A new caption element. Its id is left to the host's index. */
  function CaptionElement(c: Caption): Element
  {
    Element("", DiagramCaptionType, None, map[], None, [], Some(c))
  }

  /** The root of the diagram, whose child list both overlays change in place. */
  class ModelRoot {
    var children: seq<Element>

    constructor (children: seq<Element>)
      ensures this.children == children
    {
      this.children := children;
    }
  }

  /**
   * `model.index.getById(id)`: the position of the first root child with
   * that id, or None when no child has it.
   */
  function GetById(children: seq<Element>, id: string): (r: Option<nat>)
    ensures r.Some? ==> r.value < |children| && children[r.value].id == id
    ensures r.Some? ==> forall k :: 0 <= k < r.value ==> children[k].id != id
    ensures r.None? ==> forall k :: 0 <= k < |children| ==> children[k].id != id
  {
    if children == [] then None
    else if children[0].id == id then Some(0)
    else match GetById(children[1..], id)
      case None => None
      case Some(k) => Some(k + 1)
  }

  /** Two child lists agree on everything except render arguments and labels. */
  ghost predicate SameShape(a: seq<Element>, b: seq<Element>)
  {
    |a| == |b| &&
    forall k :: 0 <= k < |a| ==>
      a[k].id == b[k].id && a[k].kind == b[k].kind &&
      a[k].bounds == b[k].bounds && a[k].caption == b[k].caption
  }

  /** Lookup by id sees only ids, so lists of the same shape resolve alike. */
  lemma GetByIdSameShape(a: seq<Element>, b: seq<Element>, id: string)
    requires SameShape(a, b)
    ensures GetById(a, id) == GetById(b, id)
  {
    match GetById(a, id)
    case None =>
    case Some(i) =>
      assert b[i].id == id;
  }

  /**
   * `removeAll(e => e.type === kind)` on the root: drops the root's direct
   * children of that type and keeps the others. Children of children are
   * not looked at.
   */
  function RemoveAll(children: seq<Element>, kind: Kind): (r: seq<Element>)
    ensures forall e :: e in r <==> e in children && e.kind != kind
    ensures |r| <= |children|
  {
    if children == [] then []
    else (if children[0].kind == kind then [] else [children[0]]) + RemoveAll(children[1..], kind)
  }

  /** RemoveAll keeps the survivors in their original order: it distributes over concatenation. */
  lemma {:induction false} RemoveAllAppend(a: seq<Element>, b: seq<Element>, kind: Kind)
    ensures RemoveAll(a + b, kind) == RemoveAll(a, kind) + RemoveAll(b, kind)
  {
    if a == [] {
      assert a + b == b;
    } else {
      assert (a + b)[1..] == a[1..] + b;
      RemoveAllAppend(a[1..], b, kind);
    }
  }

  /** RemoveAll on a list without that type changes nothing. */
  lemma {:induction false} RemoveAllAbsent(children: seq<Element>, kind: Kind)
    requires forall k :: 0 <= k < |children| ==> children[k].kind != kind
    ensures RemoveAll(children, kind) == children
  {
    if children != [] {
      RemoveAllAbsent(children[1..], kind);
      assert [children[0]] + children[1..] == children;
    }
  }

  /** The bounds of the bounds-aware children, in order: `children.filter(isBoundsAware).map(e => e.bounds)`. */
  function ItemBounds(children: seq<Element>): (r: seq<Bounds>)
    ensures forall b :: b in r <==> exists k :: 0 <= k < |children| && children[k].bounds == Some(b)
  {
    if children == [] then []
    else
      var rest := ItemBounds(children[1..]);
      assert forall k :: 1 <= k < |children| ==> children[k] == children[1..][k - 1];
      match children[0].bounds
      case None => rest
      case Some(b) => [b] + rest
  }

  /** Lists of the same shape have the same bounds-aware items. */
  lemma {:induction false} ItemBoundsSameShape(a: seq<Element>, b: seq<Element>)
    requires SameShape(a, b)
    ensures ItemBounds(a) == ItemBounds(b)
  {
    if a != [] {
      ItemBoundsSameShape(a[1..], b[1..]);
    }
  }
}

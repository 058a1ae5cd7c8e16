/**
 * The quantitative overlay command (MiningCommand): once the mining data is
 * available it attaches a MiningLabel to every edge the data names, moves
 * the edge's own label when it lies within 30 of the last
 * segment's midpoint (by `30 - d` in the positive direction of one axis), and adds a start and an end caption
 * anchored to the diagram's bounds. `execute` does nothing once captions are
 * present; `undo` removes the root's labels and captions.
 */
module MiningAction {
  import opened Optional
  import opened Geometry
  import opened Diagram

  /** One entry of the fetched data: a diagram element id with its relative and displayed value. */
  datatype MiningNode = MiningNode(nodeType: string, id: string, relativeValue: real, labelValue: real)

  datatype Period = Period(start: string, end: string)

  /** The fetched mining data. */
  datatype MiningData = MiningData(
    colors: seq<string>,
    processName: string,
    analysisType: string,
    numberOfInstances: int,
    nodes: seq<MiningNode>,
    timeFrame: Period)

  /** The guard of `execute`: some root child is a caption. */
  predicate HasCaption(children: seq<Element>)
  {
    exists k :: 0 <= k < |children| && children[k].kind == DiagramCaptionType
  }

  // ---------------------------------------------------------------------
  // Moving an edge's existing label

  /** How close an existing label may be to the last segment's midpoint before it is moved. */
  const Threshold: real := 30.0

  /** The midpoint of the last segment, written as `p2 - (p2 - p1) / 2`. */
  function Midpoint(p1: Point, p2: Point): Point
  {
    Point(p2.x - (p2.x - p1.x) / 2.0, p2.y - (p2.y - p1.y) / 2.0)
  }

  /** A label is looked at only when it exists, has text and the route has a last segment. */
  predicate Movable(editable: Option<Label>, segments: seq<Point>)
  {
    editable.Some? && editable.value.text != "" && |segments| >= 2
  }

  /** The distance from the label to the midpoint of the last segment. */
  function LabelDistance(editable: Label, segments: seq<Point>, sqrt: real -> real): real
    requires |segments| >= 2
  {
    sqrt(SqDist(editable.position, Midpoint(segments[|segments| - 2], segments[|segments| - 1])))
  }

  /**
   * `moveExistingLabel`: a label closer than `Threshold` to the midpoint of
   * the last segment is pushed by `Threshold - distance` along y when the
   * segment's x offset exceeds its y offset (signed), and along x otherwise.
   */
  function MoveExistingLabel(editable: Option<Label>, segments: seq<Point>, sqrt: real -> real): (moved: Option<Label>)
    ensures !Movable(editable, segments) ==> moved == editable
    ensures Movable(editable, segments) && LabelDistance(editable.value, segments, sqrt) >= Threshold ==> moved == editable
    ensures Movable(editable, segments) && LabelDistance(editable.value, segments, sqrt) < Threshold ==>
      var d := LabelDistance(editable.value, segments, sqrt);
      var p1, p2 := segments[|segments| - 2], segments[|segments| - 1];
      var p := editable.value.position;
      Threshold - d > 0.0 &&
      moved == Some(editable.value.(position :=
        if p2.x - p1.x > p2.y - p1.y then Point(p.x, p.y + (Threshold - d)) else Point(p.x + (Threshold - d), p.y)))
  {
    if !Movable(editable, segments) then editable
    else
      var p1 := segments[|segments| - 2];
      var p2 := segments[|segments| - 1];
      var p := editable.value.position;
      var pM := Midpoint(p1, p2);
      var distance := sqrt(SqDist(p, pM));
      if distance < Threshold then
        var xOffset := p2.x - p1.x;
        var yOffset := p2.y - p1.y;
        var q := if xOffset > yOffset then p.(y := p.y + (Threshold - distance)) else p.(x := p.x + (Threshold - distance));
        Some(editable.value.(position := q))
      else editable
  }

  /** A move changes only the position, and only one of its coordinates, which grows. */
  lemma MoveChangesOneCoordinate(editable: Option<Label>, segments: seq<Point>, sqrt: real -> real)
    ensures var moved := MoveExistingLabel(editable, segments, sqrt);
      moved.Some? == editable.Some? &&
      (moved.Some? ==>
        moved.value.text == editable.value.text &&
        var p, q := editable.value.position, moved.value.position;
        (q.x == p.x && q.y >= p.y) || (q.y == p.y && q.x > p.x))
  {
  }

  /** The host's square root of 400 is 20. */
  lemma SqrtOf400(sqrt: real -> real)
    requires IsSqrt(sqrt)
    ensures sqrt(400.0) == 20.0
  {
    RootOf400(sqrt(400.0));
  }

  /**
   * The push goes in the positive direction whatever side the label is on,
   * so a label above a horizontal segment ends up nearer its midpoint. The
   * requires is what SqrtOf400 proves of any square root.
   */
  lemma MoveMayApproachMidpoint(sqrt: real -> real)
    requires sqrt(400.0) == 20.0
    ensures var moved := MoveExistingLabel(Some(Label("3", Point(50.0, -20.0))), [Point(0.0, 0.0), Point(100.0, 0.0)], sqrt);
      moved == Some(Label("3", Point(50.0, -10.0))) &&
      SqDist(Point(50.0, -10.0), Point(50.0, 0.0)) < SqDist(Point(50.0, -20.0), Point(50.0, 0.0))
  {
    var segments := [Point(0.0, 0.0), Point(100.0, 0.0)];
    var lab := Label("3", Point(50.0, -20.0));
    assert LabelDistance(lab, segments, sqrt) == 20.0 by {
      assert Midpoint(segments[0], segments[1]) == Point(50.0, 0.0);
      assert SqDist(Point(50.0, -20.0), Point(50.0, 0.0)) == 400.0;
    }
    assert SqDist(Point(50.0, -10.0), Point(50.0, 0.0)) == 100.0 by {
      assert (50.0 - 50.0) * (50.0 - 50.0) == 0.0;
    }
  }

  /** 20 is the only non-negative root of 400. */
  lemma RootOf400(d: real)
    requires d >= 0.0 && d * d == 400.0
    ensures d == 20.0
  {
    assert (d - 20.0) * (d + 20.0) == d * d - 400.0;
    ProductZero(d - 20.0, d + 20.0);
  }

  /** A product is zero only if a factor is. */
  lemma ProductZero(a: real, b: real)
    requires a * b == 0.0 && b != 0.0
    ensures a == 0.0
  {
    DivideBack(a, b);
  }

  lemma DivideBack(a: real, b: real)
    requires b != 0.0
    ensures (a * b) / b == a && 0.0 / b == 0.0
  {
  }

  // ---------------------------------------------------------------------
  // The anchor rectangle of the captions

  function Min(a: real, b: real): real { if a <= b then a else b }
  function Max(a: real, b: real): real { if a >= b then a else b }

  const Origin: Bounds := Bounds(0.0, 0.0, 0.0, 0.0)

  /** One step of the fold in `getModelBounds`. */
  function Accumulate(acc: Bounds, b: Bounds): Bounds
  {
    Bounds(Min(acc.x, b.x), Min(acc.y, b.y), Max(acc.width, b.x), Max(acc.height, b.y + b.height))
  }

  /** The fold of `getModelBounds` over the items, from the all-zero start, first item first. */
  function AnchorRect(items: seq<Bounds>): Bounds
  {
    if items == [] then Origin else Accumulate(AnchorRect(items[..|items| - 1]), items[|items| - 1])
  }

  /**
   * r is the anchor rectangle of the items: x and y are the least of 0 and
   * every item's x and y; `width` is the greatest of 0 and every item's x;
   * `height` the greatest of 0 and every item's bottom edge. Each bound is
   * either 0 or attained by some item.
   */
  ghost predicate IsAnchorRect(r: Bounds, items: seq<Bounds>)
  {
    && r.x <= 0.0 && (forall b :: b in items ==> r.x <= b.x)
    && (r.x == 0.0 || exists b :: b in items && r.x == b.x)
    && r.y <= 0.0 && (forall b :: b in items ==> r.y <= b.y)
    && (r.y == 0.0 || exists b :: b in items && r.y == b.y)
    && r.width >= 0.0 && (forall b :: b in items ==> r.width >= b.x)
    && (r.width == 0.0 || exists b :: b in items && r.width == b.x)
    && r.height >= 0.0 && (forall b :: b in items ==> r.height >= b.y + b.height)
    && (r.height == 0.0 || exists b :: b in items && r.height == b.y + b.height)
  }

  /** The fold computes exactly the anchor rectangle. */
  lemma {:induction false} AnchorRectIsExact(items: seq<Bounds>)
    ensures IsAnchorRect(AnchorRect(items), items)
  {
    if items != [] {
      var init, last := items[..|items| - 1], items[|items| - 1];
      assert items == init + [last];
      AnchorRectIsExact(init);
      assert forall b :: b in items <==> b in init || b == last;
    }
  }

  /** The anchor rectangle is unique: any two rectangles meeting IsAnchorRect agree. */
  lemma AnchorRectUnique(r1: Bounds, r2: Bounds, items: seq<Bounds>)
    requires IsAnchorRect(r1, items) && IsAnchorRect(r2, items)
    ensures r1 == r2
  {
  }

  /** With no bounds-aware children the anchor rectangle is all zeros. */
  lemma AnchorRectOfNothing(children: seq<Element>)
    requires forall k :: 0 <= k < |children| ==> children[k].bounds.None?
    ensures AnchorRect(ItemBounds(children)) == Origin
  {
    if ItemBounds(children) != [] {
      var b := ItemBounds(children)[0];
      assert b in ItemBounds(children);
    }
  }

  /** `getModelBounds`: folds the bounds of the bounds-aware root children into the anchor rectangle. */
  method GetModelBounds(model: ModelRoot) returns (bounds: Bounds)
    ensures bounds == AnchorRect(ItemBounds(model.children))
    ensures IsAnchorRect(bounds, ItemBounds(model.children))
  {
    var itemBounds := ItemBounds(model.children);
    bounds := Origin;
    var i := 0;
    while i < |itemBounds|
      invariant 0 <= i <= |itemBounds|
      invariant bounds == AnchorRect(itemBounds[..i])
    {
      var b := itemBounds[i];
      bounds := Bounds(
        Min(bounds.x, b.x),
        Min(bounds.y, b.y),
        Max(bounds.width, b.x),
        Max(bounds.height, b.y + b.height));
      assert itemBounds[..i + 1][..i] == itemBounds[..i];
      i := i + 1;
    }
    assert itemBounds[..i] == itemBounds;
    AnchorRectIsExact(itemBounds);
  }

  // ---------------------------------------------------------------------
  // Populating the diagram

  /**
   * The work done for one entry of the data: when its id names an edge, the
   * edge's own label is moved by `MoveExistingLabel` and a MiningLabel carrying the
   * entry's values and the edge's routed points is attached to the edge.
   * Any other entry leaves the children as they are.
   */
  function DecorateEdge(children: seq<Element>, node: MiningNode, route: Element -> seq<Point>, sqrt: real -> real): (r: seq<Element>)
    ensures SameShape(children, r)
    ensures match GetById(children, node.id)
      case None => r == children
      case Some(i) =>
        if children[i].kind != Edge then r == children
        else
          var edge := children[i];
          var segments := route(edge);
          && r[i].miningLabels == edge.miningLabels + [MiningLabel(node.labelValue, node.relativeValue, segments)]
          && r[i].editableLabel == MoveExistingLabel(edge.editableLabel, segments, sqrt)
          && r[i].args == edge.args
          && forall k :: 0 <= k < |children| && k != i ==> r[k] == children[k]
  {
    match GetById(children, node.id)
    case None => children
    case Some(i) =>
      if children[i].kind != Edge then children
      else
        var edge := children[i];
        var segments := route(edge);
        var miningLabel := MiningLabel(node.labelValue, node.relativeValue, segments);
        children[i := edge.(
          editableLabel := MoveExistingLabel(edge.editableLabel, segments, sqrt),
          miningLabels := edge.miningLabels + [miningLabel])]
  }

  /** The children after the loop over the first |nodes| entries. */
  function Decorated(children: seq<Element>, nodes: seq<MiningNode>, route: Element -> seq<Point>, sqrt: real -> real): (r: seq<Element>)
    ensures SameShape(children, r)
  {
    if nodes == [] then children
    else DecorateEdge(Decorated(children, nodes[..|nodes| - 1], route, sqrt), nodes[|nodes| - 1], route, sqrt)
  }

  /** The two captions: the process title at the start, the instance count and period at the end. */
  function Captions(anchor: Bounds, data: MiningData): seq<Element>
  {
    [ CaptionElement(Caption(anchor, Title(data.processName), Start)),
      CaptionElement(Caption(anchor, InstanceCount(data.numberOfInstances, data.timeFrame.start, data.timeFrame.end), End)) ]
  }

  /**
   * The children after `populate`: the decorated children, then a start and
   * an end caption anchored to the anchor rectangle of the root's
   * bounds-aware children, which decorating does not change.
   */
  function Populated(children: seq<Element>, data: MiningData, route: Element -> seq<Point>, sqrt: real -> real): (r: seq<Element>)
    ensures |r| == |children| + 2
    ensures SameShape(children, r[..|children|])
    ensures r[|children|].kind == DiagramCaptionType && r[|children| + 1].kind == DiagramCaptionType
    ensures r[|children|].caption == Some(Caption(AnchorRect(ItemBounds(children)), Title(data.processName), Start))
    ensures r[|children| + 1].caption == Some(Caption(AnchorRect(ItemBounds(children)),
      InstanceCount(data.numberOfInstances, data.timeFrame.start, data.timeFrame.end), End))
    ensures HasCaption(r)
  {
    var decorated := Decorated(children, data.nodes, route, sqrt);
    ItemBoundsSameShape(children, decorated);
    decorated + Captions(AnchorRect(ItemBounds(decorated)), data)
  }

  /**
   * `populate`, from the point where the data has been fetched: one pass over
   * the entries, then the two captions.
   */
  method Populate(model: ModelRoot, data: MiningData, route: Element -> seq<Point>, sqrt: real -> real)
    modifies model
    ensures model.children == Populated(old(model.children), data, route, sqrt)
  {
    ghost var original := model.children;
    var i := 0;
    while i < |data.nodes|
      invariant 0 <= i <= |data.nodes|
      invariant model.children == Decorated(original, data.nodes[..i], route, sqrt)
    {
      var node := data.nodes[i];
      var found := GetById(model.children, node.id);
      if found.Some? && model.children[found.value].kind == Edge {
        var edge := model.children[found.value];
        var segments := route(edge);
        var miningLabel := MiningLabel(node.labelValue, node.relativeValue, segments);
        var moved := MoveExistingLabel(edge.editableLabel, segments, sqrt);
        model.children := model.children[found.value := edge.(editableLabel := moved, miningLabels := edge.miningLabels + [miningLabel])];
      }
      assert data.nodes[..i + 1][..i] == data.nodes[..i];
      i := i + 1;
    }
    assert data.nodes[..i] == data.nodes;
    var bounds := GetModelBounds(model);
    model.children := model.children + Captions(bounds, data);
  }

  /** `execute`: nothing when a caption is already there, `populate` otherwise. */
  method Execute(model: ModelRoot, data: MiningData, route: Element -> seq<Point>, sqrt: real -> real)
    modifies model
    ensures HasCaption(old(model.children)) ==> model.children == old(model.children)
    ensures !HasCaption(old(model.children)) ==> model.children == Populated(old(model.children), data, route, sqrt)
  {
    if HasCaption(model.children) {
      return;
    }
    Populate(model, data, route, sqrt);
  }

  /** `redo`: the same as `execute`. */
  method Redo(model: ModelRoot, data: MiningData, route: Element -> seq<Point>, sqrt: real -> real)
    modifies model
    ensures HasCaption(old(model.children)) ==> model.children == old(model.children)
    ensures !HasCaption(old(model.children)) ==> model.children == Populated(old(model.children), data, route, sqrt)
  {
    Execute(model, data, route, sqrt);
  }

  /** A second `execute` right after the first adds nothing: one set of captions and labels. */
  method ExecuteTwice(model: ModelRoot, data: MiningData, route: Element -> seq<Point>, sqrt: real -> real)
    modifies model
    ensures !HasCaption(old(model.children)) ==> model.children == Populated(old(model.children), data, route, sqrt)
    ensures HasCaption(old(model.children)) ==> model.children == old(model.children)
  {
    Execute(model, data, route, sqrt);
    Execute(model, data, route, sqrt);
  }

  // ---------------------------------------------------------------------
  // Undo

  /** The root children `undo` removes. */
  predicate IsDecoration(e: Element)
  {
    e.kind == MiningLabelType || e.kind == DiagramCaptionType
  }

  /** The children after `undo`: both `removeAll` calls, labels first, then captions. */
  function Undone(children: seq<Element>): (r: seq<Element>)
    ensures forall e :: e in r <==> e in children && !IsDecoration(e)
  {
    RemoveAll(RemoveAll(children, MiningLabelType), DiagramCaptionType)
  }

  /** `undo` keeps the other children in their original order: it distributes over concatenation. */
  lemma UndoneAppend(a: seq<Element>, b: seq<Element>)
    ensures Undone(a + b) == Undone(a) + Undone(b)
  {
    RemoveAllAppend(a, b, MiningLabelType);
    RemoveAllAppend(RemoveAll(a, MiningLabelType), RemoveAll(b, MiningLabelType), DiagramCaptionType);
  }

  /** `undo` on children without labels or captions at the root changes nothing. */
  lemma UndoneUndecorated(children: seq<Element>)
    requires forall k :: 0 <= k < |children| ==> !IsDecoration(children[k])
    ensures Undone(children) == children
  {
    RemoveAllAbsent(children, MiningLabelType);
    RemoveAllAbsent(children, DiagramCaptionType);
  }

  /**
   * `execute` then `undo` on a diagram without decorations at its root gives
   * back the decorated children: the same root children, ids and types, but
   * the MiningLabels attached to edges and the moved edge labels remain,
   * since `removeAll` looks only at the root's direct children.
   */
  lemma UndoAfterPopulate(children: seq<Element>, data: MiningData, route: Element -> seq<Point>, sqrt: real -> real)
    requires forall k :: 0 <= k < |children| ==> !IsDecoration(children[k])
    ensures Undone(Populated(children, data, route, sqrt)) == Decorated(children, data.nodes, route, sqrt)
    ensures SameShape(children, Undone(Populated(children, data, route, sqrt)))
  {
    var decorated := Decorated(children, data.nodes, route, sqrt);
    var captions := Captions(AnchorRect(ItemBounds(decorated)), data);
    assert Populated(children, data, route, sqrt) == decorated + captions;
    UndoneAppend(decorated, captions);
    UndecoratedStaysSo(children, decorated);
    UndoneUndecorated(decorated);
    UndoneCaptions(AnchorRect(ItemBounds(decorated)), data);
    assert Undone(decorated + captions) == decorated + [];
    assert decorated + [] == decorated;
  }

  /**
   * Because `undo` leaves the labels attached to edges, `execute`, `undo`
   * and `redo` with one entry naming an edge leave that edge with two more
   * MiningLabels than it had; after `undo` no caption is left, so `redo`
   * does populate again.
   */
  lemma {:induction false} RedoAfterUndoAddsLabel(children: seq<Element>, node: MiningNode, data: MiningData, route: Element -> seq<Point>, sqrt: real -> real)
    requires data.nodes == [node]
    requires forall k :: 0 <= k < |children| ==> !IsDecoration(children[k])
    requires GetById(children, node.id).Some? && children[GetById(children, node.id).value].kind == Edge
    ensures !HasCaption(Undone(Populated(children, data, route, sqrt)))
    ensures var i := GetById(children, node.id).value;
      var undone := Undone(Populated(children, data, route, sqrt));
      |undone| == |children| &&
      |Populated(undone, data, route, sqrt)[i].miningLabels| == |children[i].miningLabels| + 2
  {
    var i := GetById(children, node.id).value;
    UndoAfterPopulate(children, data, route, sqrt);
    var once := Decorated(children, data.nodes, route, sqrt);
    DecoratedOne(children, node, route, sqrt);
    DecorateEdgeAddsOne(children, node, route, sqrt);
    DecoratedOne(once, node, route, sqrt);
    DecorateEdgeAddsOne(once, node, route, sqrt);
    PopulatedPrefix(once, data, route, sqrt);
  }

  /** The loop over a single entry is that entry's step. */
  lemma DecoratedOne(children: seq<Element>, node: MiningNode, route: Element -> seq<Point>, sqrt: real -> real)
    ensures Decorated(children, [node], route, sqrt) == DecorateEdge(children, node, route, sqrt)
  {
    assert [node][..0] == [];
  }

  /** An entry naming an edge adds one MiningLabel to it, and the id still names that edge. */
  lemma DecorateEdgeAddsOne(children: seq<Element>, node: MiningNode, route: Element -> seq<Point>, sqrt: real -> real)
    requires GetById(children, node.id).Some? && children[GetById(children, node.id).value].kind == Edge
    ensures var i, r := GetById(children, node.id).value, DecorateEdge(children, node, route, sqrt);
      GetById(r, node.id) == Some(i) && r[i].kind == Edge &&
      |r[i].miningLabels| == |children[i].miningLabels| + 1
  {
    GetByIdSameShape(children, DecorateEdge(children, node, route, sqrt), node.id);
  }

  /** `populate` keeps the decorated children in front of the captions. */
  lemma PopulatedPrefix(children: seq<Element>, data: MiningData, route: Element -> seq<Point>, sqrt: real -> real)
    ensures Populated(children, data, route, sqrt)[..|children|] == Decorated(children, data.nodes, route, sqrt)
  {
  }

  /** Decorating changes no kind, so it puts no label or caption at the root. */
  lemma UndecoratedStaysSo(children: seq<Element>, decorated: seq<Element>)
    requires forall k :: 0 <= k < |children| ==> !IsDecoration(children[k])
    requires SameShape(children, decorated)
    ensures forall k :: 0 <= k < |decorated| ==> !IsDecoration(decorated[k])
  {
  }

  /** `undo` removes both captions. */
  lemma UndoneCaptions(anchor: Bounds, data: MiningData)
    ensures Undone(Captions(anchor, data)) == []
  {
    var captions := Captions(anchor, data);
    RemoveAllAbsent(captions, MiningLabelType);
    assert RemoveAll(captions[1..][1..], DiagramCaptionType) == [] by {
      assert captions[1..][1..] == [];
    }
    assert RemoveAll(captions[1..], DiagramCaptionType) == [];
  }

  /** `undo`: removes every root child that is a MiningLabel or a caption. */
  method Undo(model: ModelRoot)
    modifies model
    ensures model.children == Undone(old(model.children))
  {
    model.children := RemoveAll(model.children, MiningLabelType);
    model.children := RemoveAll(model.children, DiagramCaptionType);
  }
}

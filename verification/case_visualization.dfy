/**
 * The case visualisation command: for one case of a process, the elements
 * the case has passed through are coloured with the passed colour and the
 * element the case currently stands at with the active colour.
 */
module CaseVisualization {
  import opened Optional
  import opened Diagram

  /** One entry of the fetched case data. */
  datatype CaseNode = CaseNode(nodeType: string, id: string, passed: bool)

  /** The fetched case data. */
  datatype ProcessData = ProcessData(
    processName: string,
    nodes: seq<CaseNode>,
    activeElementId: string,
    passedColor: string,
    activeColor: string)

  /** The element types the command recolours: edges, activities, events and gateways. */
  predicate Recolorable(kind: Kind)
  {
    kind == Edge || kind == ActivityNode || kind == EventNode || kind == GatewayNode
  }

  /** The args object that sets only the colour. */
  function ColorArgs(color: string): map<string, string>
  {
    map["color" := color]
  }

  /** The args a recolourable element holds after one entry: the active colour wins over the passed one. */
  function EntryArgs(current: map<string, string>, node: CaseNode, data: ProcessData): map<string, string>
  {
    if node.id == data.activeElementId then ColorArgs(data.activeColor)
    else if node.passed then ColorArgs(data.passedColor)
    else current
  }

  /** The children after one entry of the loop: only the element the id resolves to may change, and only its args. */
  function RecolorEntry(children: seq<Element>, node: CaseNode, data: ProcessData): (r: seq<Element>)
    ensures SameShape(children, r)
    ensures forall k :: 0 <= k < |r| ==> r[k] == children[k].(args := r[k].args)
  {
    match GetById(children, node.id)
    case Some(i) =>
      if Recolorable(children[i].kind) then children[i := children[i].(args := EntryArgs(children[i].args, node, data))]
      else children
    case None => children
  }

  /** The children after the loop over the entries `nodes`, first entry first. */
  function Recolored(children: seq<Element>, nodes: seq<CaseNode>, data: ProcessData): (r: seq<Element>)
    ensures SameShape(children, r)
    ensures forall k :: 0 <= k < |r| ==> r[k] == children[k].(args := r[k].args)
  {
    if nodes == [] then children
    else RecolorEntry(Recolored(children, nodes[..|nodes| - 1], data), nodes[|nodes| - 1], data)
  }

  /** Some entry of `nodes` carries this id. */
  predicate Listed(nodes: seq<CaseNode>, id: string)
  {
    exists j :: 0 <= j < |nodes| && nodes[j].id == id
  }

  /** Some entry of `nodes` carries this id and is marked passed. */
  predicate ListedPassed(nodes: seq<CaseNode>, id: string)
  {
    exists j :: 0 <= j < |nodes| && nodes[j].id == id && nodes[j].passed
  }

  /**
   * The args the element at index k ends with, stated without the loop: an
   * element an id lookup does not reach (an earlier element has its id) or
   * that is not recolourable keeps its args; otherwise it takes the active
   * colour when it is listed and its id is the active one, else the passed
   * colour when some entry for it is marked passed, else keeps its args.
   */
  function ExpectedArgs(children: seq<Element>, nodes: seq<CaseNode>, data: ProcessData, k: nat): map<string, string>
    requires k < |children|
  {
    var e := children[k];
    if GetById(children, e.id) != Some(k) || !Recolorable(e.kind) then e.args
    else if Listed(nodes, e.id) && e.id == data.activeElementId then ColorArgs(data.activeColor)
    else if ListedPassed(nodes, e.id) then ColorArgs(data.passedColor)
    else e.args
  }

  /** Appending an entry lists its id, and nothing else. */
  lemma ListedAppend(nodes: seq<CaseNode>, node: CaseNode, id: string)
    ensures Listed(nodes + [node], id) <==> Listed(nodes, id) || node.id == id
    ensures ListedPassed(nodes + [node], id) <==> ListedPassed(nodes, id) || (node.id == id && node.passed)
  {
    var ns := nodes + [node];
    if Listed(nodes, id) {
      var j :| 0 <= j < |nodes| && nodes[j].id == id;
      assert ns[j] == nodes[j];
    }
    if ListedPassed(nodes, id) {
      var j :| 0 <= j < |nodes| && nodes[j].id == id && nodes[j].passed;
      assert ns[j] == nodes[j];
    }
    if Listed(ns, id) && node.id != id {
      var j :| 0 <= j < |ns| && ns[j].id == id;
      assert ns[j] == nodes[j];
    }
    if ListedPassed(ns, id) && !(node.id == id && node.passed) {
      var j :| 0 <= j < |ns| && ns[j].id == id && ns[j].passed;
      assert ns[j] == nodes[j];
    }
    assert ns[|nodes|] == node;
  }

  /** An entry marked passed is an entry. */
  lemma PassedIsListed(nodes: seq<CaseNode>, id: string)
    ensures ListedPassed(nodes, id) ==> Listed(nodes, id)
  {
  }

  /** One entry moves the args at index k from the expectation without it to the one with it. */
  lemma RecolorEntryArgsAt(children: seq<Element>, prev: seq<Element>, nodes: seq<CaseNode>, node: CaseNode, data: ProcessData, k: nat)
    requires SameShape(children, prev) && k < |prev|
    requires prev[k].args == ExpectedArgs(children, nodes, data, k)
    ensures RecolorEntry(prev, node, data)[k].args == ExpectedArgs(children, nodes + [node], data, k)
  {
    GetByIdSameShape(children, prev, node.id);
    GetByIdSameShape(children, prev, children[k].id);
    ListedAppend(nodes, node, children[k].id);
  }

  /** One entry moves every element's args from the expectation without it to the one with it. */
  lemma RecolorEntryArgs(children: seq<Element>, prev: seq<Element>, nodes: seq<CaseNode>, node: CaseNode, data: ProcessData)
    requires SameShape(children, prev)
    requires forall k :: 0 <= k < |prev| ==> prev[k].args == ExpectedArgs(children, nodes, data, k)
    ensures forall k :: 0 <= k < |prev| ==> RecolorEntry(prev, node, data)[k].args == ExpectedArgs(children, nodes + [node], data, k)
  {
    forall k | 0 <= k < |prev|
      ensures RecolorEntry(prev, node, data)[k].args == ExpectedArgs(children, nodes + [node], data, k)
    {
      RecolorEntryArgsAt(children, prev, nodes, node, data, k);
    }
  }

  /** The loop's outcome element by element: each element ends with ExpectedArgs. */
  lemma {:induction false} RecoloredArgs(children: seq<Element>, nodes: seq<CaseNode>, data: ProcessData)
    ensures forall k :: 0 <= k < |children| ==> Recolored(children, nodes, data)[k].args == ExpectedArgs(children, nodes, data, k)
  {
    if nodes != [] {
      var init := nodes[..|nodes| - 1];
      RecoloredArgs(children, init, data);
      assert init + [nodes[|nodes| - 1]] == nodes;
      RecolorEntryArgs(children, Recolored(children, init, data), init, nodes[|nodes| - 1], data);
    }
  }

  /**
   * Running the loop a second time with the same data changes nothing: it
   * only overwrites args with values that do not depend on the old ones.
   */
  lemma RecolorIdempotent(children: seq<Element>, data: ProcessData)
    ensures Recolored(Recolored(children, data.nodes, data), data.nodes, data) == Recolored(children, data.nodes, data)
  {
    var once := Recolored(children, data.nodes, data);
    var twice := Recolored(once, data.nodes, data);
    RecoloredArgs(children, data.nodes, data);
    RecoloredArgs(once, data.nodes, data);
    forall k | 0 <= k < |once|
      ensures twice[k] == once[k]
    {
      GetByIdSameShape(children, once, children[k].id);
    }
  }

  /** The active colour is never applied from `activeElementId` alone: an unlisted active element keeps its args. */
  lemma ActiveNeedsListing(children: seq<Element>, data: ProcessData)
    requires !Listed(data.nodes, data.activeElementId)
    ensures forall k :: 0 <= k < |children| && children[k].id == data.activeElementId ==>
      Recolored(children, data.nodes, data)[k].args == children[k].args
  {
    RecoloredArgs(children, data.nodes, data);
    PassedIsListed(data.nodes, data.activeElementId);
  }

  /** Elements no entry names keep their args. */
  lemma UnlistedUnchanged(children: seq<Element>, data: ProcessData)
    ensures forall k :: 0 <= k < |children| && !Listed(data.nodes, children[k].id) ==>
      Recolored(children, data.nodes, data)[k] == children[k]
  {
    RecoloredArgs(children, data.nodes, data);
    forall k | 0 <= k < |children| && !Listed(data.nodes, children[k].id)
      ensures Recolored(children, data.nodes, data)[k] == children[k]
    {
      PassedIsListed(data.nodes, children[k].id);
    }
  }

  /** `populate`, from the point where the data has been fetched: one pass over the entries. */
  method Populate(model: ModelRoot, data: ProcessData)
    modifies model
    ensures model.children == Recolored(old(model.children), data.nodes, data)
  {
    ghost var original := model.children;
    var passedElementArgs := ColorArgs(data.passedColor);
    var activeElementArgs := ColorArgs(data.activeColor);
    var i := 0;
    while i < |data.nodes|
      invariant 0 <= i <= |data.nodes|
      invariant model.children == Recolored(original, data.nodes[..i], data)
    {
      var node := data.nodes[i];
      var found := GetById(model.children, node.id);
      if found.Some? && Recolorable(model.children[found.value].kind) {
        var j := found.value;
        if node.passed {
          model.children := model.children[j := model.children[j].(args := passedElementArgs)];
        }
        if node.id == data.activeElementId {
          model.children := model.children[j := model.children[j].(args := activeElementArgs)];
        }
      }
      assert data.nodes[..i + 1][..i] == data.nodes[..i];
      i := i + 1;
    }
    assert data.nodes[..i] == data.nodes;
  }

  /** `execute`: runs `populate` on the root. */
  method Execute(model: ModelRoot, data: ProcessData)
    modifies model
    ensures model.children == Recolored(old(model.children), data.nodes, data)
  {
    Populate(model, data);
  }

  /** `redo`: the same as `execute`. */
  method Redo(model: ModelRoot, data: ProcessData)
    modifies model
    ensures model.children == Recolored(old(model.children), data.nodes, data)
  {
    Execute(model, data);
  }

  /** `execute` then `redo` with the same data leaves the colours of a single `execute`. */
  method ExecuteThenRedo(model: ModelRoot, data: ProcessData)
    modifies model
    ensures model.children == Recolored(old(model.children), data.nodes, data)
  {
    Execute(model, data);
    Redo(model, data);
    RecolorIdempotent(old(model.children), data);
  }

  /** `undo`: hands back the same root, with no colour reverted. */
  method Undo(model: ModelRoot) returns (root: ModelRoot)
    ensures root == model && root.children == model.children
  {
    root := model;
  }
}

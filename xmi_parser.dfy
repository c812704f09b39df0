/**
 * `parseXMI`: the generic XMI scanner, from an already parsed document to the
 * diagram's nodes and edges.
 */
module XmiParser {
  import opened Dom
  import opened Index
  import opened Layout
  import opened Edges

  /** `true` when some node of `nodes` has id `id`. */
  ghost predicate IsNodeId(nodes: seq<Node>, id: string)
  {
    exists i :: 0 <= i < |nodes| && nodes[i].id == id
  }

  /**
   * Runs the four steps on the document whose root element is `root`: index the
   * elements by id, one node per id, then the attribute and child edges. There is
   * one node per distinct id, node ids and positions are distinct, and every edge
   * starts and ends at a node.
   */
  method ParseXmi(root: Element) returns (nodes: seq<Node>, edges: seq<Edge>)
    ensures Valid(IndexOf(AllElements(root)))
    ensures var m := IndexOf(AllElements(root));
            && |nodes| == |m.keys|
            && (forall i :: 0 <= i < |nodes| ==> nodes[i] == NodeAt(m.keys[i], m.byId[m.keys[i]], i))
            && edges == GraphEdges(m, m.keys, m.byId.Keys)
    ensures |nodes| == |IdsCarried(AllElements(root))|
    ensures forall id :: IsNodeId(nodes, id) <==> id in IdsCarried(AllElements(root))
    ensures forall i, j :: 0 <= i < j < |nodes| ==> nodes[i].id != nodes[j].id && nodes[i].position != nodes[j].position
    ensures forall x :: x in edges ==> IsNodeId(nodes, x.source) && IsNodeId(nodes, x.target)
  {
    var allElems := AllElements(root);
    var elementsById := BuildIndex(allElems);
    IndexValid(allElems);
    nodes := BuildNodes(elementsById);
    edges := BuildEdges(elementsById);
    IndexSize(allElems);
    NodeIdsAreKeys(elementsById.keys, nodes);
  }

  /** The nodes' ids, in order, are `keys`: a node has id `id` iff `id` is a key. */
  lemma NodeIdsAreKeys(keys: seq<string>, nodes: seq<Node>)
    requires |nodes| == |keys|
    requires forall i :: 0 <= i < |nodes| ==> nodes[i].id == keys[i]
    ensures forall id :: IsNodeId(nodes, id) <==> id in keys
  {
    forall id | id in keys ensures IsNodeId(nodes, id) {
      var i :| 0 <= i < |keys| && keys[i] == id;
      assert nodes[i].id == id;
    }
  }
}

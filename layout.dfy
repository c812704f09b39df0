/**
 * Step 2 of the scanner: one node per id in map order, labelled from the
 * element's attributes and placed on a ten-column grid.
 */
module Layout {
  import opened Dom
  import opened Index

  datatype Position = Position(x: int, y: int)

  /** A diagram node: its id, its `data.label` (as `caption`: `label` is a Dafny keyword), its `position` and its `style.width`. */
  datatype Node = Node(id: string, caption: string, position: Position, width: int)

  const COLUMNS: nat := 10
  const ORIGIN: int := 50
  const COLUMN_WIDTH: int := 180
  const ROW_HEIGHT: int := 120
  const NODE_WIDTH: int := 180

  /**
   * The position of the node with index `i`: column `i % 10`, row `floor(i / 10)`.
   * The grid cell can be read back from the position, so it determines `i`.
   */
  function GridPosition(i: nat): (p: Position)
    ensures ORIGIN <= p.x <= ORIGIN + (COLUMNS - 1) * COLUMN_WIDTH && (p.x - ORIGIN) % COLUMN_WIDTH == 0
    ensures ORIGIN <= p.y && (p.y - ORIGIN) % ROW_HEIGHT == 0
    ensures (p.x - ORIGIN) / COLUMN_WIDTH + COLUMNS * ((p.y - ORIGIN) / ROW_HEIGHT) == i
  {
    var col, row := i % COLUMNS, i / COLUMNS;
    assert col * COLUMN_WIDTH / COLUMN_WIDTH == col;
    assert row * ROW_HEIGHT / ROW_HEIGHT == row;
    Position(ORIGIN + col * COLUMN_WIDTH, ORIGIN + row * ROW_HEIGHT)
  }

  /** Distinct nodes get distinct positions. */
  lemma GridPositionInjective(i: nat, j: nat)
    requires i != j
    ensures GridPosition(i) != GridPosition(j)
  {
  }

  /** The attribute that gives an element's type, before the tag name. */
  const TYPE_ATTR_NAMES: seq<string> := ["xsi:type"]

  /** The attributes that give an element's name, in the order they are tried, before the type. */
  const NAME_ATTR_NAMES: seq<string> := ["name", "label", "simpleName"]

  /** The type shown in a label: the `xsi:type` attribute when it is non-empty, else the tag name. */
  function TypeOf(e: Element): string
  {
    var t := e.GetAttribute("xsi:type");
    if Truthy(t) then t.value else e.tag
  }

  /** The name shown in a label: the first non-empty name attribute, else the type. */
  function NameOf(e: Element): string
  {
    var v := Or(Or(e.GetAttribute("name"), e.GetAttribute("label")), e.GetAttribute("simpleName"));
    if Truthy(v) then v.value else TypeOf(e)
  }

  /** A node's label: its name, a space, then its type in parentheses. */
  function LabelOf(e: Element): string
  {
    NameOf(e) + " (" + TypeOf(e) + ")"
  }

  /** The node pushed for key `id` at iteration `i`. */
  function NodeAt(id: string, e: Element, i: nat): Node
  {
    Node(id, LabelOf(e), GridPosition(i), NODE_WIDTH)
  }

  /** The type is the non-empty `xsi:type` when there is one, and otherwise the tag name. */
  lemma TypeOfFirstNonEmpty(e: Element, v: string)
    ensures (exists a :: FirstNonEmpty(e, TYPE_ATTR_NAMES, a, v)) <==> !NoneNonEmpty(e, TYPE_ATTR_NAMES) && TypeOf(e) == v
    ensures NoneNonEmpty(e, TYPE_ATTR_NAMES) ==> TypeOf(e) == e.tag
  {
    assert TYPE_ATTR_NAMES[0] == "xsi:type";
    if !NoneNonEmpty(e, TYPE_ATTR_NAMES) && TypeOf(e) == v {
      assert FirstNonEmpty(e, TYPE_ATTR_NAMES, 0, v);
    }
  }

  /**
   * The name is the value of the first attribute among `name`, `label` and
   * `simpleName` that is present and non-empty; when there is none it is the type,
   * so an element with a non-empty type never gets an empty name.
   */
  lemma NameOfFirstNonEmpty(e: Element, v: string)
    ensures (exists a :: FirstNonEmpty(e, NAME_ATTR_NAMES, a, v)) <==> !NoneNonEmpty(e, NAME_ATTR_NAMES) && NameOf(e) == v
    ensures NoneNonEmpty(e, NAME_ATTR_NAMES) ==> NameOf(e) == TypeOf(e)
    ensures TypeOf(e) != "" ==> NameOf(e) != ""
  {
    assert NAME_ATTR_NAMES[0] == "name" && NAME_ATTR_NAMES[1] == "label" && NAME_ATTR_NAMES[2] == "simpleName";
    var n, l, s := e.GetAttribute(NAME_ATTR_NAMES[0]), e.GetAttribute(NAME_ATTR_NAMES[1]), e.GetAttribute(NAME_ATTR_NAMES[2]);
    if exists a :: FirstNonEmpty(e, NAME_ATTR_NAMES, a, v) {
      var a :| FirstNonEmpty(e, NAME_ATTR_NAMES, a, v);
      if a >= 1 {
        assert !Truthy(n);
      }
      if a == 2 {
        assert !Truthy(l);
      }
    }
    if !NoneNonEmpty(e, NAME_ATTR_NAMES) && NameOf(e) == v {
      if Truthy(n) {
        assert FirstNonEmpty(e, NAME_ATTR_NAMES, 0, v);
      } else if Truthy(l) {
        assert FirstNonEmpty(e, NAME_ATTR_NAMES, 1, v);
      } else {
        var j :| 0 <= j < |NAME_ATTR_NAMES| && Truthy(e.GetAttribute(NAME_ATTR_NAMES[j]));
        assert FirstNonEmpty(e, NAME_ATTR_NAMES, 2, v);
      }
    }
  }

  /** The node loop of `parseXMI`: one node per key of `elementsById`, in iteration order, with the counter `idx`. */
  method BuildNodes(elementsById: IdMap) returns (nodes: seq<Node>)
    requires Valid(elementsById)
    ensures |nodes| == |elementsById.keys|
    ensures forall i :: 0 <= i < |nodes| ==>
              var id := elementsById.keys[i];
              nodes[i] == NodeAt(id, elementsById.byId[id], i)
    ensures forall i :: 0 <= i < |nodes| ==> nodes[i].id == elementsById.keys[i]
    ensures forall i, j :: 0 <= i < j < |nodes| ==> nodes[i].id != nodes[j].id
    ensures forall i, j :: 0 <= i < j < |nodes| ==> nodes[i].position != nodes[j].position
  {
    nodes := [];
    var idx := 0;
    var keys := elementsById.keys;
    while idx < |keys|
      invariant 0 <= idx <= |keys|
      invariant |nodes| == idx
      invariant forall i :: 0 <= i < idx ==> nodes[i] == NodeAt(keys[i], elementsById.byId[keys[i]], i)
    {
      var id := keys[idx];
      var el := elementsById.byId[id];
      var ty := TypeOf(el);
      var name := NameOf(el);
      nodes := nodes + [Node(id, name + " (" + ty + ")", GridPosition(idx), NODE_WIDTH)];
      idx := idx + 1;
    }
    DistinctKeys(elementsById, nodes);
  }

  /** Nodes built from the keys in order have the keys' distinct ids and distinct grid positions. */
  lemma DistinctKeys(m: IdMap, nodes: seq<Node>)
    requires Valid(m) && |nodes| == |m.keys|
    requires forall i :: 0 <= i < |nodes| ==> nodes[i] == NodeAt(m.keys[i], m.byId[m.keys[i]], i)
    ensures forall i, j :: 0 <= i < j < |nodes| ==> nodes[i].id != nodes[j].id
    ensures forall i, j :: 0 <= i < j < |nodes| ==> nodes[i].position != nodes[j].position
  {
    forall i, j | 0 <= i < j < |nodes| ensures nodes[i].position != nodes[j].position {
      GridPositionInjective(i, j);
    }
  }
}

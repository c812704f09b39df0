/**
 * Steps 3 and 4 of the scanner: for each indexed element, in map order, one edge
 * per known id mentioned in one of its attribute values, then one `-child` edge
 * per descendant whose reference attribute names a known id.
 */
module Edges {
  import opened Wrappers
  import opened Dom
  import opened Refs
  import opened Index

  /** A diagram edge; `caption` is the optional `label` (a Dafny keyword). */
  datatype Edge = Edge(id: string, source: string, target: string, caption: Option<string>)

  /** The edge for token `target` of attribute `attrName`: its id joins source, target and attribute name with `-`, and its label is the attribute name. */
  function AttrEdge(source: string, target: string, attrName: string): Edge
  {
    Edge(source + "-" + target + "-" + attrName, source, target, Some(attrName))
  }

  /** The edge for a descendant's reference: its id joins source, target and the word `child` with `-`, and it has no label. */
  function ChildEdge(source: string, target: string): Edge
  {
    Edge(source + "-" + target + "-child", source, target, None)
  }

  /** A descendant's reference: its `xmi:idref` when non-empty, else its `href` when non-empty, else its `ref` as it stands. */
  function RefOf(e: Element): Option<string>
  {
    Or(Or(e.GetAttribute("xmi:idref"), e.GetAttribute("href")), e.GetAttribute("ref"))
  }

  /** The edges of the token loop: one edge per reference, in order. */
  function TokenEdges(source: string, attrName: string, refs: seq<string>): seq<Edge>
  {
    if refs == [] then []
    else TokenEdges(source, attrName, refs[..|refs| - 1]) + [AttrEdge(source, refs[|refs| - 1], attrName)]
  }

  /** The edges of the attribute loop of `parseXMI` over `attrs`. */
  function AttrEdges(source: string, attrs: seq<Attr>, ids: set<string>): seq<Edge>
  {
    if attrs == [] then []
    else
      var a := attrs[|attrs| - 1];
      AttrEdges(source, attrs[..|attrs| - 1], ids) + TokenEdges(source, a.name, ExtractRefs(Some(a.value), ids))
  }

  /** The edges of the descendant loop of `parseXMI` over `children`. */
  function ChildEdges(source: string, children: seq<Element>, ids: set<string>): seq<Edge>
  {
    if children == [] then []
    else
      var ref := RefOf(children[|children| - 1]);
      ChildEdges(source, children[..|children| - 1], ids) +
      (if Truthy(ref) && ref.value in ids then [ChildEdge(source, ref.value)] else [])
  }

  /** The edges of one element: its attribute edges, then its child edges. */
  function ElementEdges(source: string, e: Element, ids: set<string>): seq<Edge>
  {
    AttrEdges(source, e.attrs, ids) + ChildEdges(source, Descendants(e), ids)
  }

  /** The edges of the loop over the entries of `elementsById`, for the keys `ks` in order. */
  function GraphEdges(m: IdMap, ks: seq<string>, ids: set<string>): seq<Edge>
    requires forall k :: k in ks ==> k in m.byId
  {
    if ks == [] then []
    else
      var k := ks[|ks| - 1];
      GraphEdges(m, ks[..|ks| - 1], ids) + ElementEdges(k, m.byId[k], ids)
  }

  // ----- properties -----

  lemma {:induction false} TokenEdgesMembership(source: string, attrName: string, refs: seq<string>, x: Edge)
    ensures x in TokenEdges(source, attrName, refs) <==> exists t :: t in refs && x == AttrEdge(source, t, attrName)
  {
    if refs != [] {
      var init := refs[..|refs| - 1];
      TokenEdgesMembership(source, attrName, init, x);
      assert forall t :: t in refs <==> t in init || t == refs[|refs| - 1];
    }
  }

  /** Attribute `i` of `attrs` yields reference `t`, and `x` is the edge for it. */
  ghost predicate AttrYields(source: string, attrs: seq<Attr>, ids: set<string>, x: Edge, i: int, t: string)
  {
    0 <= i < |attrs| && t in ExtractRefs(Some(attrs[i].value), ids) && x == AttrEdge(source, t, attrs[i].name)
  }

  /**
   * Attribute edges are exactly the (attribute, kept token) pairs: an edge is among
   * them iff some attribute's value yields its target as a reference, and it
   * then carries that attribute's name as label and in its id.
   */
  lemma {:induction false} AttrEdgesMembership(source: string, attrs: seq<Attr>, ids: set<string>, x: Edge)
    ensures x in AttrEdges(source, attrs, ids) <==> exists i, t :: AttrYields(source, attrs, ids, x, i, t)
  {
    if attrs != [] {
      var n := |attrs|;
      var init := attrs[..n - 1];
      var a := attrs[n - 1];
      var refs := ExtractRefs(Some(a.value), ids);
      var before := AttrEdges(source, init, ids);
      var last := TokenEdges(source, a.name, refs);
      assert AttrEdges(source, attrs, ids) == before + last;
      assert x in before ==> exists i, t :: AttrYields(source, attrs, ids, x, i, t) by {
        if x in before {
          AttrEdgesMembership(source, init, ids, x);
          var i, t :| AttrYields(source, init, ids, x, i, t);
          assert attrs[i] == init[i];
          assert AttrYields(source, attrs, ids, x, i, t);
        }
      }
      assert x in last ==> exists i, t :: AttrYields(source, attrs, ids, x, i, t) by {
        if x in last {
          TokenEdgesMembership(source, a.name, refs, x);
          var t :| t in refs && x == AttrEdge(source, t, a.name);
          assert AttrYields(source, attrs, ids, x, n - 1, t);
        }
      }
      assert (exists i, t :: AttrYields(source, attrs, ids, x, i, t)) ==> x in before || x in last by {
        if exists i, t :: AttrYields(source, attrs, ids, x, i, t) {
          var i, t :| AttrYields(source, attrs, ids, x, i, t);
          if i < n - 1 {
            assert init[i] == attrs[i];
            assert AttrYields(source, init, ids, x, i, t);
            AttrEdgesMembership(source, init, ids, x);
          } else {
            assert i == n - 1 && attrs[i] == a;
            assert t in refs && x == AttrEdge(source, t, a.name);
            TokenEdgesMembership(source, a.name, refs, x);
          }
        }
      }
    }
  }

  /** The number of references the attribute values of `attrs` yield. */
  function RefCount(attrs: seq<Attr>, ids: set<string>): nat
  {
    if attrs == [] then 0
    else RefCount(attrs[..|attrs| - 1], ids) + |ExtractRefs(Some(attrs[|attrs| - 1].value), ids)|
  }

  lemma {:induction false} TokenEdgesLength(source: string, attrName: string, refs: seq<string>)
    ensures |TokenEdges(source, attrName, refs)| == |refs|
  {
    if refs != [] {
      TokenEdgesLength(source, attrName, refs[..|refs| - 1]);
    }
  }

  /** Exactly one edge per kept token: no token is dropped, none is emitted twice. */
  lemma {:induction false} AttrEdgesCount(source: string, attrs: seq<Attr>, ids: set<string>)
    ensures |AttrEdges(source, attrs, ids)| == RefCount(attrs, ids)
  {
    if attrs != [] {
      var n := |attrs|;
      var a := attrs[n - 1];
      AttrEdgesCount(source, attrs[..n - 1], ids);
      TokenEdgesLength(source, a.name, ExtractRefs(Some(a.value), ids));
    }
  }

  /**
   * Child edges are exactly the references of the given elements that name a
   * known id; they carry no label.
   */
  lemma {:induction false} ChildEdgesMembership(source: string, children: seq<Element>, ids: set<string>, x: Edge)
    ensures x in ChildEdges(source, children, ids) <==>
            exists d :: d in children && Truthy(RefOf(d)) && RefOf(d).value in ids &&
                        x == ChildEdge(source, RefOf(d).value)
  {
    if children != [] {
      var init := children[..|children| - 1];
      ChildEdgesMembership(source, init, ids, x);
      assert forall d :: d in children <==> d in init || d == children[|children| - 1];
    }
  }

  /** Child edges reach every depth: a reference anywhere below the element yields an edge. */
  lemma DeepChildEdge(source: string, e: Element, c: Element, d: Element, ids: set<string>)
    requires c in Descendants(e) && d in Descendants(c)
    requires Truthy(RefOf(d)) && RefOf(d).value in ids
    ensures ChildEdge(source, RefOf(d).value) in ElementEdges(source, e, ids)
  {
    DescendantsTransitive(e, c, d);
    ChildEdgesMembership(source, Descendants(e), ids, ChildEdge(source, RefOf(d).value));
  }

  /** The reference attributes of a descendant, in the order they are tried. */
  const REF_ATTR_NAMES: seq<string> := ["xmi:idref", "href", "ref"]

  /**
   * A descendant refers to `v` exactly when `v` is the value of the first of
   * `REF_ATTR_NAMES` that is present and non-empty, and it refers to nothing
   * exactly when none of them is.
   */
  lemma RefOfFirstNonEmpty(d: Element, v: string)
    ensures Truthy(RefOf(d)) && RefOf(d).value == v <==> exists a :: FirstNonEmpty(d, REF_ATTR_NAMES, a, v)
    ensures NoneNonEmpty(d, REF_ATTR_NAMES) <==> !Truthy(RefOf(d))
  {
    assert REF_ATTR_NAMES[0] == "xmi:idref" && REF_ATTR_NAMES[1] == "href" && REF_ATTR_NAMES[2] == "ref";
    var x, h, r := d.GetAttribute(REF_ATTR_NAMES[0]), d.GetAttribute(REF_ATTR_NAMES[1]), d.GetAttribute(REF_ATTR_NAMES[2]);
    if exists a :: FirstNonEmpty(d, REF_ATTR_NAMES, a, v) {
      var a :| FirstNonEmpty(d, REF_ATTR_NAMES, a, v);
      if a >= 1 {
        assert !Truthy(x);
      }
      if a == 2 {
        assert !Truthy(h);
      }
    }
    if Truthy(RefOf(d)) && RefOf(d).value == v {
      if Truthy(x) {
        assert FirstNonEmpty(d, REF_ATTR_NAMES, 0, v);
      } else if Truthy(h) {
        assert FirstNonEmpty(d, REF_ATTR_NAMES, 1, v);
      } else {
        assert FirstNonEmpty(d, REF_ATTR_NAMES, 2, v);
      }
    }
    if !NoneNonEmpty(d, REF_ATTR_NAMES) {
      var j :| 0 <= j < |REF_ATTR_NAMES| && Truthy(d.GetAttribute(REF_ATTR_NAMES[j]));
      assert Truthy(RefOf(d)) by {
        if !Truthy(x) && !Truthy(h) {
          assert j == 2;
        }
      }
    }
  }

  /** `xmi:idref` shadows `href` and `ref`: a present, non-empty but unknown `xmi:idref` yields no edge. */
  lemma RefPriority(source: string, d: Element, ids: set<string>)
    requires Truthy(d.GetAttribute("xmi:idref")) && d.GetAttribute("xmi:idref").value !in ids
    ensures ChildEdges(source, [d], ids) == []
  {
    assert [d][..0] == [];
  }

  /** Every edge of the graph starts at one of the keys processed and ends at a known id. */
  lemma {:induction false} NoDanglingEdges(m: IdMap, ks: seq<string>, ids: set<string>, x: Edge)
    requires forall k :: k in ks ==> k in m.byId
    requires x in GraphEdges(m, ks, ids)
    ensures x.source in ks && x.target in ids
  {
    var k := ks[|ks| - 1];
    var init := ks[..|ks| - 1];
    assert forall k' :: k' in init ==> k' in ks;
    if x in GraphEdges(m, init, ids) {
      NoDanglingEdges(m, init, ids, x);
    } else {
      var e := m.byId[k];
      if x in AttrEdges(k, e.attrs, ids) {
        AttrEdgesMembership(k, e.attrs, ids, x);
        var i, t :| AttrYields(k, e.attrs, ids, x, i, t);
      } else {
        ChildEdgesMembership(k, Descendants(e), ids, x);
      }
    }
  }

  /** The graph's edges are exactly the edges of the elements processed. */
  lemma {:induction false} GraphEdgesMembership(m: IdMap, ks: seq<string>, ids: set<string>, x: Edge)
    requires forall k :: k in ks ==> k in m.byId
    ensures x in GraphEdges(m, ks, ids) <==> exists k :: k in ks && x in ElementEdges(k, m.byId[k], ids)
  {
    if ks != [] {
      var init := ks[..|ks| - 1];
      assert forall k' :: k' in init ==> k' in ks;
      GraphEdgesMembership(m, init, ids, x);
      assert forall k' :: k' in ks <==> k' in init || k' == ks[|ks| - 1];
    }
  }

  /**
   * The element stored under a key whose id contains no separator refers to itself
   * through the attribute that supplied the id: each node gets a self-edge.
   */
  lemma SelfEdge(m: IdMap, ks: seq<string>, ids: set<string>, k: string)
    requires forall k' :: k' in ks ==> k' in m.byId
    requires k in ks && k in ids && NoSeparator(k)
    requires IdOf(m.byId[k]) == Some(k)
    ensures exists name :: name in ID_ATTR_NAMES && AttrEdge(k, k, name) in GraphEdges(m, ks, ids)
  {
    var e := m.byId[k];
    var name := if Truthy(e.GetAttribute("xmi:id")) then "xmi:id" else "id";
    assert e.GetAttribute(name) == Some(k);
    LookupFirst(e.attrs, name);
    var i :| 0 <= i < |e.attrs| && e.attrs[i] == Attr(name, k) && forall j :: 0 <= j < i ==> e.attrs[j].name != name;
    ExtractRefsOfId(k, ids);
    assert AttrYields(k, e.attrs, ids, AttrEdge(k, k, name), i, k);
    AttrEdgesMembership(k, e.attrs, ids, AttrEdge(k, k, name));
    GraphEdgesMembership(m, ks, ids, AttrEdge(k, k, name));
  }

  /**
   * Map order: the edges of the keys `a` all come before the edges of the keys `b`
   * that follow them, each element's block unchanged.
   */
  lemma {:induction false} GraphEdgesAppend(m: IdMap, a: seq<string>, b: seq<string>, ids: set<string>)
    requires forall k :: k in a + b ==> k in m.byId
    ensures forall k :: k in a ==> k in m.byId
    ensures forall k :: k in b ==> k in m.byId
    ensures GraphEdges(m, a + b, ids) == GraphEdges(m, a, ids) + GraphEdges(m, b, ids)
  {
    assert forall k :: k in a ==> k in a + b;
    assert forall k :: k in b ==> k in a + b;
    if b == [] {
      assert a + b == a;
    } else {
      var init := b[..|b| - 1];
      var k := b[|b| - 1];
      assert (a + b)[..|a + b| - 1] == a + init && (a + b)[|a + b| - 1] == k;
      assert forall k' :: k' in a + init ==> k' in a + b;
      GraphEdgesAppend(m, a, init, ids);
      AppendAssoc(GraphEdges(m, a, ids), GraphEdges(m, init, ids), ElementEdges(k, m.byId[k], ids));
    }
  }

  /**
   * Every node whose id contains no separator has a self-edge: the element the
   * index keeps for the id carries it in `xmi:id` or `id`, and that value names it.
   */
  lemma NodeSelfEdge(elems: seq<Element>, k: string)
    requires k in IndexOf(elems).byId && NoSeparator(k)
    ensures Valid(IndexOf(elems))
    ensures var m := IndexOf(elems);
            exists name :: name in ID_ATTR_NAMES && AttrEdge(k, k, name) in GraphEdges(m, m.keys, m.byId.Keys)
  {
    var m := IndexOf(elems);
    IndexValid(elems);
    IndexLastWins(elems, k);
    var j :| LastWithId(elems, k, j) && m.byId[k] == elems[j];
    assert k != "" by {
      assert Truthy(IdOf(elems[j]));
    }
    SelfEdge(m, m.keys, m.byId.Keys, k);
  }

  /** Edge ids are not unique: a value that names the same id twice yields two identical edges. */
  lemma DuplicateEdgeIds(source: string, t: string, name: string, ids: set<string>)
    requires t != "" && NoSeparator(t) && t in ids
    ensures var es := AttrEdges(source, [Attr(name, t + " " + t)], ids);
            |es| == 2 && es[0] == es[1] == AttrEdge(source, t, name)
  {
    var a := Attr(name, t + " " + t);
    ExtractRefsRepeated(t, ids);
    SingleAttrEdges(source, a, ids);
    TokenEdgesPair(source, name, t);
  }

  /** For `DuplicateEdgeIds`: the two references `[t, t]` give two copies of the same edge. */
  lemma TokenEdgesPair(source: string, attrName: string, t: string)
    ensures TokenEdges(source, attrName, [t, t]) == [AttrEdge(source, t, attrName), AttrEdge(source, t, attrName)]
  {
    var e := AttrEdge(source, t, attrName);
    TokenEdgesSnoc(source, attrName, [t, t], 0);
    TokenEdgesSnoc(source, attrName, [t, t], 1);
    assert [t, t][..0] == [] && [t, t][..2] == [t, t];
    assert TokenEdges(source, attrName, [t, t][..1]) == [e];
  }

  /** For `DuplicateEdgeIds`: the edges of one attribute are its token edges. */
  lemma SingleAttrEdges(source: string, a: Attr, ids: set<string>)
    ensures AttrEdges(source, [a], ids) == TokenEdges(source, a.name, ExtractRefs(Some(a.value), ids))
  {
    AttrEdgesSnoc(source, [a], 0, ids);
    assert [a][..1] == [a];
  }

  /** For `PushAttrEdges` and `SingleAttrEdges`: one more attribute appends its token edges. */
  lemma AttrEdgesSnoc(source: string, attrs: seq<Attr>, i: nat, ids: set<string>)
    requires i < |attrs|
    ensures AttrEdges(source, attrs[..i + 1], ids) ==
            AttrEdges(source, attrs[..i], ids) + TokenEdges(source, attrs[i].name, ExtractRefs(Some(attrs[i].value), ids))
  {
    assert attrs[..i + 1][..i] == attrs[..i] && attrs[..i + 1][i] == attrs[i];
  }

  /** For `BuildEdges`: one more key appends the edges of its element. */
  lemma GraphEdgesSnoc(m: IdMap, ks: seq<string>, i: nat, ids: set<string>)
    requires forall k :: k in ks ==> k in m.byId
    requires i < |ks|
    ensures forall k :: k in ks[..i] ==> k in m.byId
    ensures GraphEdges(m, ks[..i + 1], ids) == GraphEdges(m, ks[..i], ids) + ElementEdges(ks[i], m.byId[ks[i]], ids)
  {
    assert ks[..i + 1][..i] == ks[..i] && ks[..i + 1][i] == ks[i];
  }

  /** For `PushChildEdges`: one more descendant appends its child edge, if it has one. */
  lemma ChildEdgesSnoc(source: string, children: seq<Element>, i: nat, ids: set<string>)
    requires i < |children|
    ensures var ref := RefOf(children[i]);
            ChildEdges(source, children[..i + 1], ids) ==
            ChildEdges(source, children[..i], ids) + (if Truthy(ref) && ref.value in ids then [ChildEdge(source, ref.value)] else [])
  {
    assert children[..i + 1][..i] == children[..i] && children[..i + 1][i] == children[i];
  }

  /** For `PushTokenEdges` and `TokenEdgesPair`: one more reference appends its edge. */
  lemma TokenEdgesSnoc(source: string, attrName: string, refs: seq<string>, i: nat)
    requires i < |refs|
    ensures TokenEdges(source, attrName, refs[..i + 1]) == TokenEdges(source, attrName, refs[..i]) + [AttrEdge(source, refs[i], attrName)]
  {
    assert refs[..i + 1][..i] == refs[..i] && refs[..i + 1][i] == refs[i];
  }


  /** Regrouping a concatenation, stated apart so that the loops' proofs need not find it. */
  lemma AppendAssoc(a: seq<Edge>, b: seq<Edge>, c: seq<Edge>)
    ensures a + b + c == a + (b + c)
  {
  }

  /** The token loop of `parseXMI`: one edge per reference pushed onto `edges`. */
  method PushTokenEdges(edges: seq<Edge>, id: string, attrName: string, refs: seq<string>) returns (edges': seq<Edge>)
    ensures edges' == edges + TokenEdges(id, attrName, refs)
  {
    edges' := edges;
    var r := 0;
    while r < |refs|
      invariant 0 <= r <= |refs|
      invariant edges' == edges + TokenEdges(id, attrName, refs[..r])
    {
      TokenEdgesSnoc(id, attrName, refs, r);
      AppendAssoc(edges, TokenEdges(id, attrName, refs[..r]), [AttrEdge(id, refs[r], attrName)]);
      edges' := edges' + [Edge(id + "-" + refs[r] + "-" + attrName, id, refs[r], Some(attrName))];
      r := r + 1;
    }
    assert refs[..r] == refs;
  }

  /**
   * The attribute loop of `parseXMI`: for each attribute of `el`, in order, the edges for the
   * references its value yields, pushed onto `edges`.
   */
  method PushAttrEdges(edges: seq<Edge>, id: string, el: Element, idSet: set<string>) returns (edges': seq<Edge>)
    ensures edges' == edges + AttrEdges(id, el.attrs, idSet)
  {
    edges' := edges;
    var i := 0;
    while i < |el.attrs|
      invariant 0 <= i <= |el.attrs|
      invariant edges' == edges + AttrEdges(id, el.attrs[..i], idSet)
    {
      var a := el.attrs[i];
      var refs := ExtractRefs(Some(a.value), idSet);
      AttrEdgesSnoc(id, el.attrs, i, idSet);
      edges' := PushTokenEdges(edges', id, a.name, refs);
      AppendAssoc(edges, AttrEdges(id, el.attrs[..i], idSet), TokenEdges(id, a.name, refs));
      i := i + 1;
    }
    assert el.attrs[..i] == el.attrs;
  }

  /**
   * The descendant loop of `parseXMI`: for each descendant of `el` in pre-order
   * whose reference names a known id, one `-child` edge pushed onto `edges`.
   */
  method PushChildEdges(edges: seq<Edge>, id: string, el: Element, idSet: set<string>) returns (edges': seq<Edge>)
    ensures edges' == edges + ChildEdges(id, Descendants(el), idSet)
  {
    edges' := edges;
    var children := Descendants(el);
    var c := 0;
    while c < |children|
      invariant 0 <= c <= |children|
      invariant edges' == edges + ChildEdges(id, children[..c], idSet)
    {
      var child := children[c];
      var ref := Or(Or(child.GetAttribute("xmi:idref"), child.GetAttribute("href")), child.GetAttribute("ref"));
      ChildEdgesSnoc(id, children, c, idSet);
      if ref.Some? && ref.value != "" && ref.value in idSet {
        AppendAssoc(edges, ChildEdges(id, children[..c], idSet), [ChildEdge(id, ref.value)]);
        edges' := edges' + [Edge(id + "-" + ref.value + "-child", id, ref.value, None)];
      }
      c := c + 1;
    }
    assert children[..c] == children;
  }

  /**
   * The edge phase of `parseXMI`: the set of ids from the keys, then the loop over
   * the map's entries pushing each element's attribute edges and child edges onto `edges`.
   */
  method BuildEdges(elementsById: IdMap) returns (edges: seq<Edge>)
    requires Valid(elementsById)
    ensures edges == GraphEdges(elementsById, elementsById.keys, elementsById.byId.Keys)
    ensures forall x :: x in edges ==> x.source in elementsById.byId && x.target in elementsById.byId
  {
    var keys := elementsById.keys;
    var idSet := set k | k in keys;
    assert idSet == elementsById.byId.Keys;
    edges := [];
    var i := 0;
    while i < |keys|
      invariant 0 <= i <= |keys|
      invariant edges == GraphEdges(elementsById, keys[..i], idSet)
    {
      var id := keys[i];
      var el := elementsById.byId[id];
      GraphEdgesSnoc(elementsById, keys, i, idSet);
      ghost var before := edges;
      edges := PushAttrEdges(edges, id, el, idSet);
      edges := PushChildEdges(edges, id, el, idSet);
      AppendAssoc(before, AttrEdges(id, el.attrs, idSet), ChildEdges(id, Descendants(el), idSet));
      i := i + 1;
    }
    assert keys[..i] == keys;
    forall x | x in edges ensures x.source in elementsById.byId && x.target in elementsById.byId {
      NoDanglingEdges(elementsById, keys, idSet, x);
    }
  }
}

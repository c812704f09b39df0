/**
 * The parsed XML document the scanner works on: an element tree with ordered
 * attributes, and the three DOM queries the scanner uses.
 */
module Dom {
  import opened Wrappers

  /** One attribute of an element: its qualified name (`xmi:id`, `xsi:type`, ...) and its value. */
  datatype Attr = Attr(name: string, value: string)

  /** An element: its tag name, its attributes in document order, its child elements in document order. */
  datatype Element = Element(tag: string, attrs: seq<Attr>, children: seq<Element>)
  {
    /** DOM `getAttribute`: the value of the attribute called `name`, or `null` (None). */
    function GetAttribute(name: string): Option<string>
    {
      Lookup(attrs, name)
    }
  }

  /** The value of the first attribute called `name`, or None when there is none. */
  function Lookup(attrs: seq<Attr>, name: string): Option<string>
  {
    if attrs == [] then None
    else if attrs[0].name == name then Some(attrs[0].value)
    else Lookup(attrs[1..], name)
  }

  /**
   * `getAttribute` finds nothing exactly when no attribute has the name, and
   * otherwise the value of the first attribute with that name.
   */
  lemma {:induction false} LookupFirst(attrs: seq<Attr>, name: string)
    ensures Lookup(attrs, name).None? <==> forall i :: 0 <= i < |attrs| ==> attrs[i].name != name
    ensures Lookup(attrs, name).Some? ==>
      exists i :: 0 <= i < |attrs| && attrs[i] == Attr(name, Lookup(attrs, name).value) &&
        forall j :: 0 <= j < i ==> attrs[j].name != name
  {
    if attrs != [] && attrs[0].name != name {
      var r := Lookup(attrs[1..], name);
      LookupFirst(attrs[1..], name);
      assert forall i :: 1 <= i < |attrs| ==> attrs[i] == attrs[1..][i - 1];
      if r.Some? {
        var i :| 0 <= i < |attrs[1..]| && attrs[1..][i] == Attr(name, r.value) &&
                 forall j :: 0 <= j < i ==> attrs[1..][j].name != name;
        assert attrs[i + 1] == Attr(name, r.value);
        assert forall j :: 0 <= j < i + 1 ==> attrs[j].name != name by {
          forall j | 0 <= j < i + 1 ensures attrs[j].name != name {
            if j > 0 {
              assert attrs[j] == attrs[1..][j - 1];
            }
          }
        }
      }
    }
  }

  /** JavaScript truthiness of a `getAttribute` result: present and not the empty string. */
  predicate Truthy(v: Option<string>)
  {
    v.Some? && v.value != ""
  }

  /** JavaScript `a || b` on two `getAttribute` results: `a` when it is truthy, else `b`. */
  function Or(a: Option<string>, b: Option<string>): Option<string>
  {
    if Truthy(a) then a else b
  }

  /**
   * Among the attribute names `names`, tried in order, `names[a]` is the first
   * whose value is present and non-empty, and that value is `v`.
   */
  ghost predicate FirstNonEmpty(e: Element, names: seq<string>, a: int, v: string)
  {
    0 <= a < |names| && e.GetAttribute(names[a]) == Some(v) && v != "" &&
    forall j :: 0 <= j < a ==> !Truthy(e.GetAttribute(names[j]))
  }

  /** None of the attribute names `names` has a present, non-empty value. */
  ghost predicate NoneNonEmpty(e: Element, names: seq<string>)
  {
    forall j :: 0 <= j < |names| ==> !Truthy(e.GetAttribute(names[j]))
  }

  /** `getElementsByTagName('*')` on the element's subtree: the element itself, then its descendants, in pre-order. */
  function AllElements(e: Element): (r: seq<Element>)
    decreases e, 1
  {
    [e] + AllInForest(e.children)
  }

  /** All elements of a sequence of sibling subtrees, in pre-order. */
  function AllInForest(cs: seq<Element>): (r: seq<Element>)
    decreases cs, 0
  {
    if cs == [] then [] else AllElements(cs[0]) + AllInForest(cs[1..])
  }

  /** `querySelectorAll('*')` on an element: its proper descendants, in pre-order. */
  function Descendants(e: Element): seq<Element>
  {
    AllInForest(e.children)
  }

  /** An element lies in a forest exactly when it lies in the subtree of one of its roots. */
  lemma {:induction false} InForest(cs: seq<Element>, x: Element)
    ensures x in AllInForest(cs) <==> exists k :: 0 <= k < |cs| && x in AllElements(cs[k])
  {
    if cs != [] {
      InForest(cs[1..], x);
      if x in AllInForest(cs[1..]) {
        var k :| 0 <= k < |cs[1..]| && x in AllElements(cs[1..][k]);
        assert x in AllElements(cs[k + 1]);
      }
      if exists k :: 0 <= k < |cs| && x in AllElements(cs[k]) {
        var k :| 0 <= k < |cs| && x in AllElements(cs[k]);
        if k > 0 {
          assert cs[1..][k - 1] == cs[k];
        }
      }
    }
  }

  /** Subtrees nest: an element in the subtree of an element of `e`'s subtree is in `e`'s subtree. */
  lemma {:induction false} SubtreeTransitive(e: Element, c: Element, d: Element)
    requires c in AllElements(e) && d in AllElements(c)
    ensures d in AllElements(e)
    decreases e
  {
    if c != e {
      assert c in AllInForest(e.children);
      InForest(e.children, c);
      var k :| 0 <= k < |e.children| && c in AllElements(e.children[k]);
      SubtreeTransitive(e.children[k], c, d);
      InForest(e.children, d);
    }
  }

  /** `querySelectorAll('*')` reaches every depth: a descendant of a descendant is a descendant. */
  lemma DescendantsTransitive(e: Element, c: Element, d: Element)
    requires c in Descendants(e) && d in Descendants(c)
    ensures d in Descendants(e)
  {
    InForest(e.children, c);
    var k :| 0 <= k < |e.children| && c in AllElements(e.children[k]);
    assert d in AllElements(c);
    SubtreeTransitive(e.children[k], c, d);
    InForest(e.children, d);
  }

  /** Every element of a direct child's subtree is a descendant. */
  lemma ChildSubtreeInDescendants(e: Element, k: nat, d: Element)
    requires k < |e.children| && d in AllElements(e.children[k])
    ensures d in Descendants(e)
  {
    InForest(e.children, d);
  }
}

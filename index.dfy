/**
 * Step 1 of the scanner: the `elementsById` map from id to element, filled in
 * document order from every element that carries an `xmi:id` or an `id`.
 */
module Index {
  import opened Wrappers
  import opened Dom

  /** The id attributes, in the order they are tried. */
  const ID_ATTR_NAMES: seq<string> := ["xmi:id", "id"]

  /** The id an element contributes: its first id attribute that is present and non-empty. */
  function IdOf(e: Element): Option<string>
  {
    var x := e.GetAttribute(ID_ATTR_NAMES[0]);
    if Truthy(x) then x else var y := e.GetAttribute(ID_ATTR_NAMES[1]); if Truthy(y) then y else None
  }

  /**
   * The id of an element is the value of the first id attribute, in the order of
   * `ID_ATTR_NAMES`, that is present and non-empty; an element none of whose id
   * attributes is non-empty has no id.
   */
  lemma IdOfFirstNonEmpty(e: Element, v: string)
    ensures IdOf(e) == Some(v) <==> exists a :: FirstNonEmpty(e, ID_ATTR_NAMES, a, v)
    ensures IdOf(e) == None <==> NoneNonEmpty(e, ID_ATTR_NAMES)
  {
    if exists a :: FirstNonEmpty(e, ID_ATTR_NAMES, a, v) {
      var a :| FirstNonEmpty(e, ID_ATTR_NAMES, a, v);
      if a == 1 {
        assert !Truthy(e.GetAttribute(ID_ATTR_NAMES[0]));
      }
    }
    if IdOf(e) == Some(v) {
      if Truthy(e.GetAttribute(ID_ATTR_NAMES[0])) {
        assert FirstNonEmpty(e, ID_ATTR_NAMES, 0, v);
      } else {
        assert FirstNonEmpty(e, ID_ATTR_NAMES, 1, v);
      }
    }
  }

  /**
   * A JavaScript `Map<string, Element>`: `keys` in the order of their first
   * insertion, `byId` the current value of each key.
   */
  datatype IdMap = IdMap(keys: seq<string>, byId: map<string, Element>)

  const EMPTY: IdMap := IdMap([], map[])

  /** The keys are distinct and are exactly the domain of `byId`. */
  ghost predicate Valid(m: IdMap)
  {
    && (forall i, j :: 0 <= i < j < |m.keys| ==> m.keys[i] != m.keys[j])
    && (forall k :: k in m.byId <==> k in m.keys)
  }

  /**
   * `Map.prototype.set`: a new key goes to the end of the iteration order; an
   * existing key keeps its place and gets the new value.
   */
  function Put(m: IdMap, k: string, v: Element): (r: IdMap)
    ensures Valid(m) ==> Valid(r)
    ensures r.byId.Keys == m.byId.Keys + {k} && r.byId[k] == v
    ensures forall k' :: k' in m.byId && k' != k ==> r.byId[k'] == m.byId[k']
    ensures |m.keys| <= |r.keys| && r.keys[..|m.keys|] == m.keys
    ensures |r.keys| == if k in m.byId then |m.keys| else |m.keys| + 1
  {
    IdMap(if k in m.byId then m.keys else m.keys + [k], m.byId[k := v])
  }

  /** One step of the indexing loop: an element with an id is stored under it, others change nothing. */
  function Step(m: IdMap, e: Element): (r: IdMap)
    ensures forall k :: k in r.byId <==> k in m.byId || IdOf(e) == Some(k)
    ensures forall k :: k in m.byId && IdOf(e) != Some(k) ==> r.byId[k] == m.byId[k]
    ensures IdOf(e).Some? ==> r.byId[IdOf(e).value] == e
    ensures |m.keys| <= |r.keys| && r.keys[..|m.keys|] == m.keys
    ensures |r.keys| == if IdOf(e).Some? && IdOf(e).value !in m.byId then |m.keys| + 1 else |m.keys|
    ensures |r.keys| > |m.keys| ==> r.keys[|m.keys|] == IdOf(e).value
    ensures Valid(m) ==> Valid(r)
  {
    match IdOf(e)
    case None => m
    case Some(id) => Put(m, id, e)
  }

  /** The map the indexing loop produces from `elems`, one step per element in turn. */
  function IndexOf(elems: seq<Element>): IdMap
  {
    if elems == [] then EMPTY else Step(IndexOf(elems[..|elems| - 1]), elems[|elems| - 1])
  }

  /** The index is a well-formed map. */
  lemma {:induction false} IndexValid(elems: seq<Element>)
    ensures Valid(IndexOf(elems))
  {
    if elems != [] {
      IndexValid(elems[..|elems| - 1]);
    }
  }

  /** The ids of the index are exactly the ids elements carry. */
  lemma {:induction false} IndexDomain(elems: seq<Element>, k: string)
    ensures k in IndexOf(elems).byId <==> exists j :: 0 <= j < |elems| && IdOf(elems[j]) == Some(k)
  {
    if elems != [] {
      var n := |elems|;
      var init := elems[..n - 1];
      IndexDomain(init, k);
      assert k in IndexOf(elems).byId <==> k in IndexOf(init).byId || IdOf(elems[n - 1]) == Some(k);
      assert forall j :: 0 <= j < n - 1 ==> init[j] == elems[j];
    }
  }

  /** Element `j` carries id `k` and no later element does. */
  ghost predicate LastWithId(elems: seq<Element>, k: string, j: int)
  {
    0 <= j < |elems| && IdOf(elems[j]) == Some(k) &&
    forall j' :: j < j' < |elems| ==> IdOf(elems[j']) != Some(k)
  }

  /**
   * Duplicate ids are last-wins: the element stored under an id is the last
   * element in document order that carries it.
   */
  lemma {:induction false} IndexLastWins(elems: seq<Element>, k: string)
    requires k in IndexOf(elems).byId
    ensures exists j :: LastWithId(elems, k, j) && IndexOf(elems).byId[k] == elems[j]
  {
    var n := |elems|;
    var init := elems[..n - 1];
    assert IndexOf(elems) == Step(IndexOf(init), elems[n - 1]);
    if IdOf(elems[n - 1]) == Some(k) {
      assert LastWithId(elems, k, n - 1);
    } else {
      IndexLastWins(init, k);
      var j :| LastWithId(init, k, j) && IndexOf(init).byId[k] == init[j];
      LastWithIdExtend(elems, k, j);
    }
  }

  /** For `IndexLastWins`: an element without id `k` appended at the end keeps the last carrier of `k`. */
  lemma LastWithIdExtend(elems: seq<Element>, k: string, j: int)
    requires elems != [] && LastWithId(elems[..|elems| - 1], k, j) && IdOf(elems[|elems| - 1]) != Some(k)
    ensures LastWithId(elems, k, j) && elems[j] == elems[..|elems| - 1][j]
  {
    var init := elems[..|elems| - 1];
    assert forall j' :: 0 <= j' < |init| ==> elems[j'] == init[j'];
  }

  /** Element `j` carries id `a` and no element up to `j` carries id `b`. */
  ghost predicate CarriedBefore(elems: seq<Element>, a: string, b: string, j: int)
  {
    0 <= j < |elems| && IdOf(elems[j]) == Some(a) &&
    forall j' :: 0 <= j' <= j ==> IdOf(elems[j']) != Some(b)
  }

  /**
   * Keys keep the position of their first insertion: when key `p` comes before key
   * `q`, some element carries id `keys[p]` before any element carries id `keys[q]`.
   */
  lemma {:induction false} IndexFirstInsertionOrder(elems: seq<Element>, p: nat, q: nat)
    requires p < q < |IndexOf(elems).keys|
    ensures exists j :: CarriedBefore(elems, IndexOf(elems).keys[p], IndexOf(elems).keys[q], j)
  {
    var n := |elems|;
    var init := elems[..n - 1];
    var m := IndexOf(init);
    var keys := IndexOf(elems).keys;
    assert IndexOf(elems) == Step(m, elems[n - 1]);
    assert keys[..|m.keys|] == m.keys;
    if q < |m.keys| {
      IndexFirstInsertionOrder(init, p, q);
      var j :| CarriedBefore(init, m.keys[p], m.keys[q], j);
      CarriedBeforeExtend(elems, m.keys[p], m.keys[q], j);
    } else {
      // keys[q] is the id of the last element, seen for the first time
      IndexValid(init);
      assert keys[q] !in m.byId && keys[p] in m.byId;
      FirstCarrier(init, keys[p], keys[q]);
      var j :| CarriedBefore(init, keys[p], keys[q], j);
      CarriedBeforeExtend(elems, keys[p], keys[q], j);
    }
  }

  /** An id in the index, and another one not in it: the first is carried before the second. */
  lemma FirstCarrier(elems: seq<Element>, a: string, b: string)
    requires a in IndexOf(elems).byId && b !in IndexOf(elems).byId
    ensures exists j :: CarriedBefore(elems, a, b, j)
  {
    IndexDomain(elems, a);
    IndexDomain(elems, b);
    var j :| 0 <= j < |elems| && IdOf(elems[j]) == Some(a);
    assert CarriedBefore(elems, a, b, j);
  }

  /** For `IndexFirstInsertionOrder`: appending an element keeps a witness that `a` was carried before `b`. */
  lemma CarriedBeforeExtend(elems: seq<Element>, a: string, b: string, j: int)
    requires elems != [] && CarriedBefore(elems[..|elems| - 1], a, b, j)
    ensures CarriedBefore(elems, a, b, j)
  {
    var init := elems[..|elems| - 1];
    assert forall j' :: 0 <= j' < |init| ==> elems[j'] == init[j'];
  }

  /** A sequence without repetitions has as many elements as its set. */
  lemma {:induction false} DistinctCardinality(s: seq<string>)
    requires forall i, j :: 0 <= i < j < |s| ==> s[i] != s[j]
    ensures |set x | x in s| == |s|
  {
    if s != [] {
      var t := s[..|s| - 1];
      DistinctCardinality(t);
      assert (set x | x in s) == (set x | x in t) + {s[|s| - 1]};
      assert s[|s| - 1] !in t;
    }
  }

  /** The set of ids carried by the elements. */
  ghost function IdsCarried(elems: seq<Element>): set<string>
  {
    set j | 0 <= j < |elems| && IdOf(elems[j]).Some? :: IdOf(elems[j]).value
  }

  /** There is one key per distinct id. */
  lemma IndexSize(elems: seq<Element>)
    ensures forall k :: k in IndexOf(elems).keys <==> k in IdsCarried(elems)
    ensures |IndexOf(elems).keys| == |IdsCarried(elems)|
  {
    var m := IndexOf(elems);
    IndexValid(elems);
    DistinctCardinality(m.keys);
    forall k ensures k in m.keys <==> k in IdsCarried(elems) {
      IndexDomain(elems, k);
    }
    assert (set x | x in m.keys) == IdsCarried(elems);
  }

  /** For `BuildIndex`: indexing one more element is one more `Step`. */
  lemma IndexSnoc(elems: seq<Element>, i: nat)
    requires i < |elems|
    ensures IndexOf(elems[..i + 1]) == Step(IndexOf(elems[..i]), elems[i])
  {
    assert elems[..i + 1][..i] == elems[..i] && elems[..i + 1][i] == elems[i];
  }

  /**
   * The indexing loop of `parseXMI`: over all elements, with the inner loop over
   * the id attribute names that stops at the first non-empty one, filling `elementsById`.
   */
  method BuildIndex(allElems: seq<Element>) returns (elementsById: IdMap)
    ensures elementsById == IndexOf(allElems)
  {
    elementsById := EMPTY;
    var i := 0;
    while i < |allElems|
      invariant 0 <= i <= |allElems|
      invariant elementsById == IndexOf(allElems[..i])
    {
      var el := allElems[i];
      IndexSnoc(allElems, i);
      ghost var before := elementsById;
      var a := 0;
      while a < |ID_ATTR_NAMES|
        invariant 0 <= a <= |ID_ATTR_NAMES|
        invariant forall j :: 0 <= j < a ==> !Truthy(el.GetAttribute(ID_ATTR_NAMES[j]))
        invariant elementsById == before
      {
        var v := el.GetAttribute(ID_ATTR_NAMES[a]);
        if v.Some? && v.value != "" {
          assert FirstNonEmpty(el, ID_ATTR_NAMES, a, v.value);
          IdOfFirstNonEmpty(el, v.value);
          elementsById := Put(elementsById, v.value, el);
          break;
        }
        a := a + 1;
      }
      i := i + 1;
    }
    assert allElems[..i] == allElems;
  }
}

# XMI scanner: from a parsed document to diagram nodes and edges

This project models `parseXMI`, the generic XMI-to-graph scanner in
`app/xmiParser.ts`, and proves properties of the model in Dafny. The scanner
works on an XML document that is already parsed. It runs in four steps:

1. **Index.** It walks every element in document order (`getElementsByTagName('*')`).
   An element with a non-empty `xmi:id`, or failing that a non-empty `id`, is
   stored in a JavaScript `Map` under that id. A later element with the same id
   replaces the value, and the key keeps the position of its first insertion.
2. **Nodes.** It emits one node per key, in map order. The label is
   `name (type)`. The type is `xsi:type`, else the tag name. The name is the
   first non-empty of `name`, `label` and `simpleName`, else the type. Node `i`
   sits at `x = 50 + (i mod 10)·180`, `y = 50 + ⌊i / 10⌋·120`, and every node
   has width 180.
3. **Attribute edges.** For each indexed element and each of its attributes,
   the value is split on white space, `,` and `;`. The pieces are trimmed and
   those that are known ids are kept. Each kept token `t` yields the edge
   `src-t-attr` with label `attr`.
4. **Child edges.** For each indexed element, every proper descendant at any
   depth (`querySelectorAll('*')`) whose `xmi:idref`, else `href`, else `ref`
   names a known id yields the edge `src-ref-child`, which has no label.

Modules follow the steps:

- `Dom`: the element tree, `getAttribute`, JavaScript truthiness and `||`, the two DOM queries.
- `Refs`: the `split`/`trim`/`filter` tokenizer `extractRefs`.
- `Index`: the `Map` and the indexing loop.
- `Layout`: labels, the grid, the node loop.
- `Edges`: the two edge loops.
- `XmiParser`: the whole function.

Each loop of the source is a `method` with a `while` loop. Its `ensures` ties
the result to a specification function: `IndexOf`, `NodeAt`, `TokenEdges`,
`AttrEdges`, `ChildEdges` and `GraphEdges`. The properties the scanner
promises are then proved as lemmas about those functions.

For `extractRefs`, the exact split-then-trim-then-filter pipeline is
related to an independent reference definition, `Words`: the maximal runs of
non-separator characters. `ExtractRefsIsKnownWords` proves that the pipeline
returns, in order, the words that are known ids.

Edge ids are not unique: `Edges.DuplicateEdgeIds` shows that a value naming
one id twice yields two identical edges with the same id. Only the element the
map keeps for an id, the last one carrying it, is scanned for edges; earlier
elements with the same id yield none. `Edges.NodeSelfEdge` shows that each such
kept element refers to itself through its own id attribute when that id has no
white space, `,` or `;` in it.

## Model

| member | source | states |
|---|---|---|
| Dom.Lookup | app/xmiParser.ts:15 | `getAttribute` as a scan of the attributes in order; its meaning is stated by `Dom.LookupFirst` |
| Dom.LookupFirst | app/xmiParser.ts:15 | `getAttribute` is absent exactly when no attribute has the name; otherwise it is the value of the first attribute with that name |
| Dom.AllElements | app/xmiParser.ts:9 | `getElementsByTagName('*')`: the element itself, then its subtrees in pre-order; membership is stated by `Dom.InForest` |
| Dom.Descendants | app/xmiParser.ts:60 | `querySelectorAll('*')`: the proper descendants in pre-order; stated by `Dom.DescendantsTransitive` and `Dom.ChildSubtreeInDescendants` |
| Dom.DescendantsTransitive | app/xmiParser.ts:60 | `querySelectorAll('*')` reaches every depth: a descendant of a descendant is a descendant |
| Dom.ChildSubtreeInDescendants | app/xmiParser.ts:60 | every element in the subtree of a direct child is a descendant |
| Dom.InForest | app/xmiParser.ts:9 | an element is in the pre-order list of a forest iff it is in the subtree of one of its roots |
| Refs.Word | app/xmiParser.ts:46 | a split piece is the longest separator-free prefix, and it is followed by a separator or the end of the value |
| Refs.Split | app/xmiParser.ts:46 | `split` always yields at least one piece, and no piece contains white space, `,` or `;` |
| Refs.Trim | app/xmiParser.ts:47 | the trimmed string is a slice of the input with only white space cut off before and after it; it neither starts nor ends with white space; it is the input itself when that has no white space |
| Refs.TrimIsSlice | app/xmiParser.ts:47 | dropping the white space at the front and then at the back leaves a middle slice with only white space around it |
| Refs.TrimAllIsIdentity | app/xmiParser.ts:46-47 | trimming the split pieces changes none of them |
| Refs.Known | app/xmiParser.ts:48 | the filter keeps exactly the non-empty tokens that are in the id set, and nothing else |
| Refs.ExtractRefs | app/xmiParser.ts:43-49 | a missing or empty value yields no references; every reference is a non-empty known id free of separators |
| Refs.WordsAreWords | app/xmiParser.ts:46 | every word of a value is non-empty and free of separators |
| Refs.KnownSplitIsKnownWords | app/xmiParser.ts:46-48 | filtering the split pieces keeps the same tokens as filtering the value's words, in order |
| Refs.ExtractRefsIsKnownWords | app/xmiParser.ts:43-49 | the references of a value are, in order, exactly its words that are known ids |
| Refs.ExtractRefsOfId | app/xmiParser.ts:43-49 | a known id with no separator in it, taken as a value, refers to itself only |
| Refs.ExtractRefsJoin | app/xmiParser.ts:45-48 | joining two values with one separator concatenates their references |
| Refs.ExtractRefsRepeated | app/xmiParser.ts:45-48 | an id written twice in one value is referred to twice |
| Index.IdOf | app/xmiParser.ts:14-19 | the inner loop over the id attribute names as a value; its meaning is stated by `Index.IdOfFirstNonEmpty` |
| Index.IdOfFirstNonEmpty | app/xmiParser.ts:10-20 | the id is the value of the first of `xmi:id`, `id` that is present and non-empty, and the element has no id exactly when neither is |
| Index.Put | app/xmiParser.ts:17 | `Map.set` stores the value under the key, changes no other key, appends a new key and keeps an existing key's place |
| Index.Step | app/xmiParser.ts:14-20 | one iteration stores the element under its id, if it has one, and changes nothing else |
| Index.IndexOf | app/xmiParser.ts:12-21 | the map as filled by the indexing loop, one `set` per element with an id; stated by the `Index` lemmas below |
| Index.IndexValid | app/xmiParser.ts:12-21 | the map's keys are distinct and are exactly its domain |
| Index.IndexDomain | app/xmiParser.ts:12-21 | an id is a key iff some element carries it |
| Index.IndexLastWins | app/xmiParser.ts:12-21 | the element stored under an id is the last element in document order that carries it |
| Index.IndexFirstInsertionOrder | app/xmiParser.ts:12-21 | when key `p` precedes key `q`, some element carries id `p` before any element carries id `q` |
| Index.IndexSize | app/xmiParser.ts:12-21 | the keys are exactly the ids carried, one key per distinct id |
| Index.BuildIndex | app/xmiParser.ts:12-21 | the loop with the inner `for … break` computes `IndexOf` of the elements |
| Layout.GridPosition | app/xmiParser.ts:33 | x and y lie on the 180 by 120 grid from (50, 50) within 10 columns, and the index is recoverable from the position |
| Layout.GridPositionInjective | app/xmiParser.ts:33 | distinct indices get distinct positions |
| Layout.TypeOf | app/xmiParser.ts:26 | a node's type as a value; its meaning is stated by `Layout.TypeOfFirstNonEmpty` |
| Layout.TypeOfFirstNonEmpty | app/xmiParser.ts:26 | the type is the value of `xsi:type` exactly when that is present and non-empty, and otherwise the tag name |
| Layout.NameOf | app/xmiParser.ts:27-28 | a node's name as a value; its meaning is stated by `Layout.NameOfFirstNonEmpty` |
| Layout.NameOfFirstNonEmpty | app/xmiParser.ts:27-28 | the name is the value of the first of `name`, `label`, `simpleName` that is present and non-empty; when none is, it is the type; a non-empty type gives a non-empty name |
| Layout.LabelOf | app/xmiParser.ts:32 | the label is the name, a space and the type in parentheses |
| Layout.NodeAt | app/xmiParser.ts:30-35 | the node for key `i`: its id, its label, grid position `i` and width 180; `Layout.BuildNodes` and `Layout.DistinctKeys` state its properties |
| Layout.DistinctKeys | app/xmiParser.ts:25-36 | nodes built from distinct keys in order have distinct ids and distinct positions |
| Layout.BuildNodes | app/xmiParser.ts:23-37 | node `i` is the node for key `i` with label, grid position `i` and width 180; ids and positions are distinct |
| Edges.AttrEdge | app/xmiParser.ts:56 | the edge for a token: id from source, target and attribute name, labelled with the attribute name; used by `Edges.AttrEdgesMembership` |
| Edges.ChildEdge | app/xmiParser.ts:64 | the edge for a descendant's reference: id from source, target and `child`, no label; used by `Edges.ChildEdgesMembership` |
| Edges.RefOf | app/xmiParser.ts:62 | a descendant's reference, `xmi:idref` else `href` else `ref`; its meaning is stated by `Edges.RefOfFirstNonEmpty` |
| Edges.RefOfFirstNonEmpty | app/xmiParser.ts:62 | a descendant refers to `v` exactly when `v` is the value of the first of `xmi:idref`, `href`, `ref` that is present and non-empty, and to nothing exactly when none of them is |
| Edges.TokenEdges | app/xmiParser.ts:55-57 | the edges of the token loop; stated by `Edges.TokenEdgesMembership` and `Edges.TokenEdgesLength` |
| Edges.AttrEdges | app/xmiParser.ts:52-58 | the edges of the attribute loop; stated by `Edges.AttrEdgesMembership` and `Edges.AttrEdgesCount` |
| Edges.ChildEdges | app/xmiParser.ts:60-66 | the edges of the descendant loop; stated by `Edges.ChildEdgesMembership` and `Edges.DeepChildEdge` |
| Edges.GraphEdges | app/xmiParser.ts:51-67 | the edges of the loop over the map's entries; stated by `Edges.GraphEdgesMembership`, `Edges.GraphEdgesAppend` and `Edges.NoDanglingEdges` |
| Edges.TokenEdgesMembership | app/xmiParser.ts:55-57 | the token loop's edges are exactly the edges to the tokens |
| Edges.TokenEdgesLength | app/xmiParser.ts:55-57 | one edge per token |
| Edges.AttrEdgesMembership | app/xmiParser.ts:52-58 | an attribute edge exists iff some attribute yields its target as a reference, with that attribute's name in its id and label |
| Edges.AttrEdgesCount | app/xmiParser.ts:52-58 | the number of attribute edges is the number of references all attribute values yield |
| Edges.ChildEdgesMembership | app/xmiParser.ts:60-66 | a child edge exists iff some descendant's `xmi:idref`/`href`/`ref` is truthy and a known id |
| Edges.DeepChildEdge | app/xmiParser.ts:60-66 | a reference at any depth below an element yields a child edge of that element |
| Edges.RefPriority | app/xmiParser.ts:62-63 | a non-empty but unknown `xmi:idref` hides `href` and `ref`, so it yields no edge |
| Edges.NoDanglingEdges | app/xmiParser.ts:48-64 | every edge starts at a processed key and ends at a known id |
| Edges.GraphEdgesMembership | app/xmiParser.ts:51-67 | the graph's edges are exactly the edges of the processed elements |
| Edges.GraphEdgesAppend | app/xmiParser.ts:51-67 | in map order, the edges of earlier keys come before the edges of later keys |
| Edges.SelfEdge | app/xmiParser.ts:51-58 | a key that the element's id attribute supplies, free of separators, yields a self-edge labelled `xmi:id` or `id` |
| Edges.NodeSelfEdge | app/xmiParser.ts:12-58 | every separator-free key of the index has a self-edge in the graph |
| Edges.DuplicateEdgeIds | app/xmiParser.ts:54-56 | a value naming the same id twice yields two equal edges with the same id |
| Edges.PushTokenEdges | app/xmiParser.ts:55-57 | the token loop appends the edges for the tokens in order |
| Edges.PushAttrEdges | app/xmiParser.ts:52-58 | the attribute loop appends the attribute edges in attribute order |
| Edges.PushChildEdges | app/xmiParser.ts:60-66 | the descendant loop appends the child edges in pre-order |
| Edges.BuildEdges | app/xmiParser.ts:39-67 | per key in map order, attribute edges then child edges; every endpoint is a key |
| XmiParser.NodeIdsAreKeys | app/xmiParser.ts:25-31 | a node has a given id iff that id is a key |
| XmiParser.ParseXmi | app/xmiParser.ts:9-69 | the map is well formed; one node per distinct id, in map order, with distinct ids and positions; edges as specified; every edge endpoint is a node |

## Left out

- XML parsing with `DOMParser` (app/xmiParser.ts:6-7) is a browser API. The model starts from an already parsed element tree, and malformed XML is not modelled.
- The tree is modelled as values, so DOM node identity is not: two structurally equal elements are indistinguishable. Nothing in the scanner depends on identity.
- Strings are Dafny `char` sequences and not UTF-16 code units. The white-space set of `\s` and `trim` is the ECMAScript one, taken character by character.
- `Array.from`, `new Set(idValues)` and the `edges`/`nodes` arrays are sequences and sets. The `style.width` is the constant 180, and `data.label` is the field `caption`.
- `Edges.SelfEdge`, `Edges.NodeSelfEdge`: an id that itself contains white space, `,` or `;` is split when read back as a value, so it gets no self-edge. The lemmas therefore require a separator-free id.
- The React views, the ELK layout call, the SVG renderers and the `exampleNodes` import belong to the user interface and are not part of this model.

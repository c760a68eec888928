# AngleSharp.XPath navigator, modelled in Dafny

This project models the core of AngleSharp.XPath. That core is `HtmlDocumentNavigator`, the
`XPathNavigator` that lets the .NET XPath engine walk an AngleSharp DOM. Three small pieces sit
around it:

- `AttrNodeWrapper`, which presents an attribute as a leaf node;
- the `Extensions` helpers: name interning (`GetOrAdd`), `CreateNavigator`, `SelectSingleNode`
  and `SelectNodes`;
- `XPathAttrSelector`, the `[xpath>'expr']` selector with its per-scope result cache.

Files and modules:

| file | module | contents |
|---|---|---|
| `wrappers.dfy` | `Wrappers` | `Option`, `Result`, and the exceptions as an `Error` datatype |
| `dom.dfy` | `Dom` | the host tree: nodes by id, a tagged node kind, links, attributes, owner, id lookup |
| `name_table.dfy` | `NameTables` | `NameTable` (a set of strings) and `GetOrAdd` |
| `navigator.dfy` | `Navigation` | inspection rules and moves as functions of a `Cursor`; the `HtmlDocumentNavigator` class; lemmas |
| `attr_node_wrapper.dfy` | `AttrNodes` | the live `Attr` object and the `AttrNodeWrapper` class |
| `extensions.dfy` | `Extensions` | `CreateNavigator`, `SelectSingleNode`, `SelectNodes` over an abstract engine |
| `xpath_attr_selector.dfy` | `Selectors` | `XPathAttrSelector` and its cache step |

How the model is built:

- **The host DOM** is an immutable `Dom.Tree`: a map from `NodeId` to `Node`. The XPath layer
  assumes the document does not change during a traversal. C# reference equality becomes
  equality of ids. A node's kind is a tagged datatype that carries what the navigator reads
  after a cast: `Data`, `Target`, the doctype `Name`, the element's names and ordered
  attributes, and the document's `DocumentElement` and id table. `TextContent` is a stored
  string that the model does not interpret.
- **The navigator's position** is a `Cursor(node, attrIndex)`, where `attrIndex == -1` means
  "on the node itself". Every inspection property and every move is first a pure function of
  the tree and a cursor. A failed move is `None`, and the position then stays as it was. The
  class `HtmlDocumentNavigator` keeps `currentNode` and `attrIndex` as mutable fields. Each
  `MoveTo*` method changes only the field it assigns (`modifies this`attrIndex` or
  `modifies this`currentNode`) and is proved against its function.
- **The class invariant** `Valid()` keeps `attrIndex >= -1`. It does not keep the index inside
  the current element's attribute list, because node moves do not reset the index.
  A read of the slot therefore can fail:
  - `LocalName` reads the slot whenever the index is not -1. It fails with `NullReference`
    when the node is not an element, and with `NoSuchAttribute` when the index is outside the
    element's attribute list.
  - `Value` first switches on the node's kind and reads the slot only on an element. It fails
    only with `NoSuchAttribute`, for an element whose index is outside its attribute list.
- **Null arguments** are `Option` values, or null references of a class type. Constructors
  cannot fail in Dafny, so static `Create` methods model the `ArgumentNullException` paths.
- **The XPath engine** is a function `Engine`. It maps the start state of the navigator plus
  the expression to the positions that the engine's iterator yields, in order.

Where the code differs from a conventional XPath cursor, the model follows the code:

- Node moves (`MoveToFirstChild`, `MoveToNext`, `MoveToPrevious`, `MoveToParent`, `MoveToId`,
  `MoveToRoot`) keep the attribute index. They do not clear it.
- `MoveToParent` on an attribute slot goes to the element's parent, not to the element.
- `IsSamePosition` compares only the current nodes. It ignores the documents and the indexes.
- `Clone` resets the index to -1, and the clone gets a new name table of its own.
- `Name` is always the node's name. `LocalName` on a slot is the attribute's qualified `Name`.
  `NamespaceURI` and `Prefix` always come from the element.

## Model

| member | source | states |
|---|---|---|
| `Navigation.HtmlDocumentNavigator.constructor` | src/AngleSharp.XPath/HtmlDocumentNavigator.cs:23-30 | a new navigator is on the given node with index -1, holds the given document and namespace flag, and has an empty name table of its own |
| `Navigation.HtmlDocumentNavigator.WithoutNamespaces` | src/AngleSharp.XPath/HtmlDocumentNavigator.cs:36-39 | the two-argument constructor: as above, with namespaces disabled |
| `Navigation.HtmlDocumentNavigator.Create` | src/AngleSharp.XPath/HtmlDocumentNavigator.cs:25-27 | a null document fails with ArgumentNull("document") first, then a null node with ArgumentNull("currentNode"); construction succeeds iff both are present |
| `Navigation.HasAttributesAt` | src/AngleSharp.XPath/HtmlDocumentNavigator.cs:55 | true only on an element, and exactly when the node's attribute list is non-empty |
| `Navigation.IsEmptyElementAt` | src/AngleSharp.XPath/HtmlDocumentNavigator.cs:58 | true exactly when the node has no first child; the index plays no part |
| `Navigation.HtmlDocumentNavigator.CurrentNode` | src/AngleSharp.XPath/HtmlDocumentNavigator.cs:47 | the node under the cursor, a node of the tree, whatever the attribute index |
| `Navigation.HtmlDocumentNavigator.HasAttributes` | src/AngleSharp.XPath/HtmlDocumentNavigator.cs:55 | true iff the current node is an element with at least one attribute, which is exactly when `MoveToFirstAttribute` would succeed |
| `Navigation.HtmlDocumentNavigator.IsEmptyElement` | src/AngleSharp.XPath/HtmlDocumentNavigator.cs:58 | true iff the current node has no child nodes, which is exactly when `MoveToFirstChild` would fail |
| `Navigation.EmptyIffNoFirstChild` | src/AngleSharp.XPath/HtmlDocumentNavigator.cs:58 | `IsEmptyElement` holds exactly when `MoveToFirstChild` would fail |
| `Navigation.SlotAttribute` | src/AngleSharp.XPath/HtmlDocumentNavigator.cs:166-170 | the slot read succeeds iff the node is an element and the index is within its attributes, and then yields that attribute; off an element it is a null dereference |
| `Navigation.LocalNameAt` | src/AngleSharp.XPath/HtmlDocumentNavigator.cs:61-77 | on the node it never fails: an element's local name, else the node name; on a slot it succeeds iff the slot read does, and then yields the attribute's qualified `Name` |
| `Navigation.HtmlDocumentNavigator.LocalName` | src/AngleSharp.XPath/HtmlDocumentNavigator.cs:61-77 | returns `LocalNameAt` of the current position and interns it; on failure the table is unchanged |
| `Navigation.HtmlDocumentNavigator.Name` | src/AngleSharp.XPath/HtmlDocumentNavigator.cs:80 | the current node's name, even on an attribute slot, interned |
| `Navigation.NamespaceUriAt` | src/AngleSharp.XPath/HtmlDocumentNavigator.cs:83 | empty when namespaces are disabled or the node is not an element; otherwise the element's namespace, or empty when it has none |
| `Navigation.HtmlDocumentNavigator.NamespaceURI` | src/AngleSharp.XPath/HtmlDocumentNavigator.cs:83 | returns `NamespaceUriAt`; the name table grows only when namespaces are enabled |
| `Navigation.PrefixAt` | src/AngleSharp.XPath/HtmlDocumentNavigator.cs:135 | empty when namespaces are disabled or the node is not an element; otherwise the element's prefix, or empty when it has none |
| `Navigation.HtmlDocumentNavigator.Prefix` | src/AngleSharp.XPath/HtmlDocumentNavigator.cs:135 | returns `PrefixAt`; the name table grows only when namespaces are enabled |
| `Navigation.NodeLevelReadsIgnoreSlot` | src/AngleSharp.XPath/HtmlDocumentNavigator.cs:83 | `NamespaceURI` and `Prefix` are the same on any slot as on the node itself |
| `Navigation.NodeTypeAt` | src/AngleSharp.XPath/HtmlDocumentNavigator.cs:89-132 | Attribute iff an attribute-kind node or an element with index != -1; Element for an element on itself, and for Document and DocumentType; Text for CharacterData and Text; Comment for a comment; ProcessingInstruction for a processing instruction; fails with NotImplemented iff the kind is Entity, EntityReference, Notation or DocumentFragment; never Root or Namespace |
| `Navigation.ValueAt` | src/AngleSharp.XPath/HtmlDocumentNavigator.cs:138-194 | on an element slot it succeeds iff the index is in range, giving that attribute's value; everywhere else it succeeds: an attribute-kind node gives its attribute's value; CharacterData and Comment their data; DocumentType its name; a processing instruction its target; an element on itself, Document, DocumentFragment, Entity, EntityReference, Notation and Text their text content |
| `Navigation.HtmlDocumentNavigator.NodeType` | src/AngleSharp.XPath/HtmlDocumentNavigator.cs:89-132 | `NodeTypeAt` at the current node and index; Attribute iff on an attribute-kind node or on a slot of an element |
| `Navigation.HtmlDocumentNavigator.Value` | src/AngleSharp.XPath/HtmlDocumentNavigator.cs:138-194 | `ValueAt` at the current node and index; on a slot of an element it succeeds iff the index is within the element's attributes |
| `Navigation.HtmlDocumentNavigator.Clone` | src/AngleSharp.XPath/HtmlDocumentNavigator.cs:197-200 | a fresh navigator with the same tree, document, node and namespace flag, index -1 and a fresh name table; the two are at the same position; the original is not modified |
| `Navigation.HtmlDocumentNavigator.IsSamePosition` | src/AngleSharp.XPath/HtmlDocumentNavigator.cs:203-211 | true iff the other is a navigator on the same current node |
| `Navigation.SamePositionIsReflexive` | src/AngleSharp.XPath/HtmlDocumentNavigator.cs:210 | every navigator is at the same position as itself |
| `Navigation.SamePositionIsSymmetric` | src/AngleSharp.XPath/HtmlDocumentNavigator.cs:210 | `IsSamePosition` gives the same answer in both directions |
| `Navigation.HtmlDocumentNavigator.MoveTo` | src/AngleSharp.XPath/HtmlDocumentNavigator.cs:214-229 | succeeds iff the other is a navigator over the same document; then node and index are both copied; otherwise nothing changes |
| `Navigation.FirstAttribute` | src/AngleSharp.XPath/HtmlDocumentNavigator.cs:232-241 | succeeds iff `HasAttributes`, staying on the node and landing on the element's first stored attribute |
| `Navigation.HtmlDocumentNavigator.MoveToFirstAttribute` | src/AngleSharp.XPath/HtmlDocumentNavigator.cs:232-241 | follows `FirstAttribute`; on failure the position is unchanged; the node is never touched |
| `Navigation.NextAttribute` | src/AngleSharp.XPath/HtmlDocumentNavigator.cs:288-302 | succeeds iff on an element whose index is below its last slot; then the index grows by exactly one (from -1 to 0) and lands on that stored attribute |
| `Navigation.HtmlDocumentNavigator.MoveToNextAttribute` | src/AngleSharp.XPath/HtmlDocumentNavigator.cs:288-302 | follows `NextAttribute`; on failure the position is unchanged |
| `Navigation.AttributeWalkFrom` | src/AngleSharp.XPath/HtmlDocumentNavigator.cs:288-302 | from slot k of an element, repeated `MoveToNextAttribute` visits exactly slots k+1 .. n-1 in order, then fails |
| `Navigation.AttributeEnumeration` | src/AngleSharp.XPath/HtmlDocumentNavigator.cs:232-241 | `MoveToFirstAttribute` from any index, then `MoveToNextAttribute` until failure, visits every attribute once in stored order, each reported as Attribute with its own value and name; walking from index -1 gives the same sequence |
| `Navigation.Follow` | src/AngleSharp.XPath/HtmlDocumentNavigator.cs:244-253 | a link move succeeds iff the link is set, lands on exactly that node, and carries the index over unchanged |
| `Navigation.HtmlDocumentNavigator.MoveToFirstChild` | src/AngleSharp.XPath/HtmlDocumentNavigator.cs:244-253 | follows the first-child link; fails with no change when it is null; the index is never touched |
| `Navigation.HtmlDocumentNavigator.MoveToNext` | src/AngleSharp.XPath/HtmlDocumentNavigator.cs:276-285 | follows the next-sibling link; fails with no change when it is null |
| `Navigation.HtmlDocumentNavigator.MoveToParent` | src/AngleSharp.XPath/HtmlDocumentNavigator.cs:311-320 | follows the parent link whatever the index; fails with no change when it is null |
| `Navigation.HtmlDocumentNavigator.MoveToPrevious` | src/AngleSharp.XPath/HtmlDocumentNavigator.cs:323-332 | follows the previous-sibling link; fails with no change when it is null |
| `Navigation.NodeMovesKeepAttributeIndex` | src/AngleSharp.XPath/HtmlDocumentNavigator.cs:251 | a node move keeps the index, so a move made on a slot that lands on an element reports Attribute again |
| `Navigation.ChildThenParent` | src/AngleSharp.XPath/HtmlDocumentNavigator.cs:311-320 | `MoveToFirstChild` then `MoveToParent` returns to the same position |
| `Navigation.SiblingMovesAreInverse` | src/AngleSharp.XPath/HtmlDocumentNavigator.cs:276-332 | `MoveToNext` then `MoveToPrevious`, and the reverse, return to the same position |
| `Navigation.ById` | src/AngleSharp.XPath/HtmlDocumentNavigator.cs:262-273 | succeeds iff the document registers the id, landing on that element with the index unchanged |
| `Navigation.HtmlDocumentNavigator.MoveToId` | src/AngleSharp.XPath/HtmlDocumentNavigator.cs:262-273 | follows `ById`; a missing id leaves node and index unchanged |
| `Navigation.HtmlDocumentNavigator.MoveToRoot` | src/AngleSharp.XPath/HtmlDocumentNavigator.cs:335-338 | the node becomes the document node itself; the index is kept |
| `Navigation.HtmlDocumentNavigator.MoveToFirstNamespace` | src/AngleSharp.XPath/HtmlDocumentNavigator.cs:256-259 | always fails |
| `Navigation.HtmlDocumentNavigator.MoveToNextNamespace` | src/AngleSharp.XPath/HtmlDocumentNavigator.cs:305-308 | always fails |
| `AttrNodes.AttrNodeWrapper.constructor` | src/AngleSharp.XPath/AttrNodeWrapper.cs:10-14 | the wrapper holds the given attribute and owning element |
| `AttrNodes.AttrNodeWrapper.Create` | src/AngleSharp.XPath/AttrNodeWrapper.cs:12-13 | a null attribute fails with ArgumentNull("attribute") first, then a null element with ArgumentNull("parentElement") |
| `AttrNodes.AttrNodeWrapper.AsAttr` | src/AngleSharp.XPath/AttrNodeWrapper.cs:21-33 | `Name`, `LocalName`, `NamespaceUri`, `Prefix` and `Value` are the wrapped attribute's own |
| `AttrNodes.AttrNodeWrapper.AsNode` | src/AngleSharp.XPath/AttrNodeWrapper.cs:39-74 | as a node: attribute kind, `NodeName` = the attribute's `Name`, text = its value, parent = the owning element, no other link, no children, owner = the element's owner |
| `AttrNodes.AttrNodeWrapper.NodeValue` | src/AngleSharp.XPath/AttrNodeWrapper.cs:62-66 | reading `NodeValue` gives the attribute's value |
| `AttrNodes.AttrNodeWrapper.TextContent` | src/AngleSharp.XPath/AttrNodeWrapper.cs:68-72 | reading `TextContent` gives the attribute's value |
| `AttrNodes.AttrNodeWrapper.ChildNodes` | src/AngleSharp.XPath/AttrNodeWrapper.cs:41 | `ChildNodes` is null |
| `AttrNodes.AttrNodeWrapper.Flags` | src/AngleSharp.XPath/AttrNodeWrapper.cs:76 | `Flags` is `NodeFlags.None` |
| `AttrNodes.AttrNodeWrapper.SetValue` | src/AngleSharp.XPath/AttrNodeWrapper.cs:25-29 | writes through: afterwards the attribute has the new value, nothing else of it changed, and `Value`, `NodeValue` and `TextContent` read it back |
| `AttrNodes.AttrNodeWrapper.SetNodeValue` | src/AngleSharp.XPath/AttrNodeWrapper.cs:62-66 | the same write-through as `SetValue` |
| `AttrNodes.AttrNodeWrapper.SetTextContent` | src/AngleSharp.XPath/AttrNodeWrapper.cs:68-72 | the same write-through as `SetValue` |
| `AttrNodes.AttrNodeWrapper.EqualsAttr` | src/AngleSharp.XPath/AttrNodeWrapper.cs:78-81 | the wrapped attribute's own `Equals` applied to the argument |
| `AttrNodes.AttrNodeWrapper.EqualsNode` | src/AngleSharp.XPath/AttrNodeWrapper.cs:107-110 | false for anything that is not a wrapper; for a wrapper, the attribute's `Equals` applied to that wrapper's attribute view |
| `AttrNodes.AttrNodeWrapper.Perform` | src/AngleSharp.XPath/AttrNodeWrapper.cs:83-155 | `Contains` and `Dispatch` answer false; every structural and namespace operation fails with NotSupported |
| `AttrNodes.AttrNodeWrapper.ToHtml` | src/AngleSharp.XPath/AttrNodeWrapper.cs:157-160 | the output is the name, then `="`, then the value unescaped, then `"`, and nothing else |
| `AttrNodes.WrapperSeenByNavigator` | src/AngleSharp.XPath/AttrNodeWrapper.cs:50-60 | a wrapper placed in the tree is reported as Attribute with its attribute's value and name; `MoveToParent` leads to the owning element; it has no first child |
| `NameTables.GetOrAdd` | src/AngleSharp.XPath/Extensions.cs:48-58 | returns a string equal to its input; the table then contains it; a string already present leaves the table unchanged, so a second call is a no-op |
| `Extensions.CreateNavigator` | src/AngleSharp.XPath/Extensions.cs:37-45 | a null document fails; otherwise a fresh navigator over the document on its document element, index -1, namespaces disabled; no document element fails with ArgumentNull("currentNode") |
| `Extensions.Nodes` | src/AngleSharp.XPath/Extensions.cs:107-112 | one node per iterator position, in order, each that position's current node |
| `Extensions.QueryStart` | src/AngleSharp.XPath/Extensions.cs:103-104 | the navigator the query helpers build starts over the element's owner document, on the element itself with index -1, namespaces disabled |
| `Extensions.Selection` | src/AngleSharp.XPath/Extensions.cs:91-115 | null element, then null expression, then an element without owner document fail with ArgumentNull; otherwise one node per position the engine yields from the element (namespaces disabled), in order |
| `Extensions.SelectNodes` | src/AngleSharp.XPath/Extensions.cs:91-115 | the loop collects exactly `Selection`: the same errors, and the nodes of all positions in iteration order |
| `Extensions.SelectSingleNode` | src/AngleSharp.XPath/Extensions.cs:60-82 | fails exactly as `SelectNodes` does; otherwise null iff `SelectNodes` would give an empty list, else that list's first node |
| `Selectors.XPathAttrSelector.constructor` | src/AngleSharp.XPath/XPathAttrSelector.cs:15 | stores the expression; scope and result start out null |
| `Selectors.XPathAttrSelector.Specificity` | src/AngleSharp.XPath/XPathAttrSelector.cs:17 | always `Priority.OneClass` |
| `Selectors.XPathAttrSelector.Text` | src/AngleSharp.XPath/XPathAttrSelector.cs:19 | `[xpath>'$`, then the expression, then `']`: the expression is recoverable from the text |
| `Selectors.XPathAttrSelector.Accept` | src/AngleSharp.XPath/XPathAttrSelector.cs:21-23 | changes nothing |
| `Selectors.MatchStep` | src/AngleSharp.XPath/XPathAttrSelector.cs:25-34 | the scope is always recorded; the same scope reuses the cached list; a new scope caches `SelectNodes(scope, value)`, or on failure returns its error and keeps the old list; with no list, it fails with a null dereference; it succeeds iff no new query failed and a list is cached, and then answers membership of the element in that list |
| `Selectors.XPathAttrSelector.Match` | src/AngleSharp.XPath/XPathAttrSelector.cs:25-34 | updates the cache and answers exactly as `MatchStep`; after a success with a new scope the cache holds that scope's `SelectNodes` result |
| `Selectors.StaleResultAfterFailedQuery` | src/AngleSharp.XPath/XPathAttrSelector.cs:27-33 | a match in scope s, then a failing match with a null scope, then another match with a null scope: the third answers true from s's list |
| `Selectors.MatchStepFixed` | src/AngleSharp.XPath/XPathAttrSelector.cs:27-33 | a corrected step that records the scope only together with its list; a cached hit leaves the cache unchanged |
| `Selectors.FixedMatchAnswersForItsScope` | src/AngleSharp.XPath/XPathAttrSelector.cs:27-33 | the corrected step keeps every cached list equal to its scope's query result; it succeeds iff the query for the given scope does, and answers membership in that result |

## Findings

| source | as written | input that shows it | evidently intended | confidence | as-written member | corrected member |
|---|---|---|---|---|---|---|
| src/AngleSharp.XPath/XPathAttrSelector.cs:27-33 | `_scope` is assigned before `SelectNodes` runs. When `SelectNodes` throws, the new scope stays cached next to the previous scope's list. | `Match(e, s)` where `e` is in the result from `s`; then `Match(e, null)`, which throws ArgumentNullException; then `Match(e, null)` again, which returns true from `s`'s list | cache the scope only together with its own result, so every answer is membership in the current scope's result | not executed; medium: it needs a caller that catches the exception and reuses the selector | `Selectors.MatchStep`, `Selectors.StaleResultAfterFailedQuery` | `Selectors.MatchStepFixed`, `Selectors.FixedMatchAnswersForItsScope` |

The class `Selectors.XPathAttrSelector` keeps the as-written behaviour, because it models the code.
The corrected step is given beside it.

## Left out

- The XPath engine (`XPathNavigator.Select`, expression compilation, axes, predicates) is
  external. It is the `Engine` function parameter. Compile errors it would throw are not modelled.
- The AngleSharp DOM is external. Parsing, the computation of `TextContent`, the
  `GetElementById` index and the `IAttr.Equals` relation are not modelled. They appear as
  stored node fields, the document's id map, and a function parameter.
- The casts in the source (`(IAttr)`, `(ICharacterData)`, `(HtmlDocumentNavigator) it.Current`)
  are assumed to succeed. The tagged node kind carries each payload directly.
- `BaseURI` of the navigator and `BaseUri`/`BaseUrl` of the wrapper are not modelled. Base
  URLs are host data that no modelled member reads.
- The navigator's `NameTable` property is not modelled separately; it only exposes the table.
- Interning is by string value. Reference identity of interned strings and `NameTable` hashing
  are not modelled.
- A navigator of another `XPathNavigator` type passed to `MoveTo` or `IsSamePosition` is
  modelled as null. Both make those members answer false.
- The exception type for an attribute index outside the element's list depends on AngleSharp's
  attribute collection. The model names it `NoSuchAttribute` and only records that the read fails.
- The event-target members of `AttrNodeWrapper` are not modelled: `AddEventListener`,
  `InvokeEventListener` and `RemoveEventListener` throw and touch no state.
- `AttrNodeWrapper.ToHtml` writes to a `TextWriter`. It is modelled as the string it writes.
  The formatter argument is not used.
- The `Accept` visitor argument is not modelled, since `Accept` ignores it.
- `XPathAttrSelector` with a null expression is not modelled. The selector factory always
  passes the parsed attribute value.
- `HtmlDocumentNavigable` is not modelled: it is a null check plus one call to
  `CreateNavigator`. `XPathConfigurationExtensions` (dependency-injection wiring) and
  `XPathNSAttrSelector` are not part of this model.
- Nothing here is concurrent. The navigator is single-threaded mutable state, as in the source.

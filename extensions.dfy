/**
 * The query entry points of `Extensions`: creating a navigator for a
 * document, and running an XPath expression from an element to get its first
 * node or all of its nodes.
 *
 * The XPath engine itself (`XPathNavigator.Select`) is external: an `Engine`
 * gives, for a start element and an expression, the positions the engine's
 * iterator yields, in order.
 */
module Extensions {
  import opened Wrappers
  import opened Dom
  import opened Navigation

  /** What the engine sees of the navigator it starts from. */
  datatype Start = Start(document: NodeId, position: Cursor, enableNamespaces: bool)

  /** The positions `nav.Select(xpath)` yields for a navigator in the given start state. */
  type Engine = (Start, string) -> seq<Cursor>

  /**
   * The start state of the navigator the query helpers create for an element:
   * over the element's owner document, on the element itself, namespaces disabled.
   */
  function QueryStart(t: Tree, element: NodeId): (s: Start)
    requires element in t.nodes && t.nodes[element].owner.Some?
    ensures s.document == t.nodes[element].owner.value
    ensures s.position == Cursor(element, -1) && !s.enableNamespaces
  {
    Start(t.nodes[element].owner.value, Cursor(element, -1), false)
  }

  /** The `CurrentNode` of each position, in order. */
  function Nodes(positions: seq<Cursor>): (r: seq<NodeId>)
    ensures |r| == |positions|
    ensures forall k :: 0 <= k < |r| ==> r[k] == positions[k].node
  {
    if positions == [] then [] else [positions[0].node] + Nodes(positions[1..])
  }

  /**
   * What `SelectNodes(element, xpath)` produces: a null element or
   * expression is rejected (the element first); an element without an owner
   * document makes the navigator constructor reject its null document;
   * otherwise the current node of every position the engine yields.
   */
  function Selection(t: Tree, engine: Engine, element: Option<NodeId>, xpath: Option<string>): (r: Result<seq<NodeId>>)
    requires element.Some? ==> element.value in t.nodes
    ensures element.None? ==> r == Failure(ArgumentNull("element"))
    ensures element.Some? && xpath.None? ==> r == Failure(ArgumentNull("xpath"))
    ensures element.Some? && xpath.Some? && t.nodes[element.value].owner.None? ==> r == Failure(ArgumentNull("document"))
    ensures r.Success? <==> element.Some? && xpath.Some? && t.nodes[element.value].owner.Some?
    ensures r.Success? ==> |r.value| == |engine(QueryStart(t, element.value), xpath.value)|
    ensures r.Success? ==> forall k :: 0 <= k < |r.value| ==>
              r.value[k] == engine(QueryStart(t, element.value), xpath.value)[k].node
  {
    if element.None? then Failure(ArgumentNull("element"))
    else if xpath.None? then Failure(ArgumentNull("xpath"))
    else if t.nodes[element.value].owner.None? then Failure(ArgumentNull("document"))
    else Success(Nodes(engine(QueryStart(t, element.value), xpath.value)))
  }

  /**
   * `CreateNavigator`: a navigator over the document, started on its document
   * element with namespaces disabled. A null document is rejected, and so
   * (by the navigator constructor) is a document without a document element.
   */
  method CreateNavigator(t: Tree, document: Option<NodeId>) returns (r: Result<HtmlDocumentNavigator>)
    requires t.Valid()
    requires document.Some? ==> t.IsDocument(document.value)
    ensures document.None? ==> r == Failure(ArgumentNull("document"))
    ensures document.Some? ==> (r.Success? <==> t.nodes[document.value].kind.documentElement.Some?)
    ensures document.Some? && r.Failure? ==> r.error == ArgumentNull("currentNode")
    ensures r.Success? ==>
              fresh(r.value) && r.value.Valid() && r.value.tree == t && r.value.document == document.value &&
              r.value.Position() == Cursor(t.nodes[document.value].kind.documentElement.value, -1) &&
              !r.value.enableNamespaces
  {
    if document.None? {
      return Failure(ArgumentNull("document"));
    }
    r := HtmlDocumentNavigator.Create(t, document, t.nodes[document.value].kind.documentElement, false);
  }

  /**
   * `SelectSingleNode`: the node of the first position the engine yields, or
   * null when it yields none; that is, the head of `SelectNodes`' list.
   */
  method SelectSingleNode(t: Tree, engine: Engine, element: Option<NodeId>, xpath: Option<string>)
    returns (r: Result<Option<NodeId>>)
    requires t.Valid()
    requires element.Some? ==> t.IsElement(element.value)
    ensures r.Success? <==> Selection(t, engine, element, xpath).Success?
    ensures r.Failure? ==> r.error == Selection(t, engine, element, xpath).error
    ensures r.Success? ==> (r.value.None? <==> Selection(t, engine, element, xpath).value == [])
    ensures r.Success? && r.value.Some? ==> r.value.value == Selection(t, engine, element, xpath).value[0]
  {
    if element.None? {
      return Failure(ArgumentNull("element"));
    }
    if xpath.None? {
      return Failure(ArgumentNull("xpath"));
    }
    var created := HtmlDocumentNavigator.Create(t, t.nodes[element.value].owner, element, false);
    if created.Failure? {
      return Failure(created.error);
    }
    var nav := created.value;
    var it := engine(Start(nav.document, nav.Position(), nav.enableNamespaces), xpath.value);
    if |it| == 0 {
      return Success(None);
    }
    r := Success(Some(it[0].node));
  }

  /** `SelectNodes`: the node of every position the engine yields, in iteration order. */
  method SelectNodes(t: Tree, engine: Engine, element: Option<NodeId>, xpath: Option<string>)
    returns (r: Result<seq<NodeId>>)
    requires t.Valid()
    requires element.Some? ==> t.IsElement(element.value)
    ensures r == Selection(t, engine, element, xpath)
  {
    if element.None? {
      return Failure(ArgumentNull("element"));
    }
    if xpath.None? {
      return Failure(ArgumentNull("xpath"));
    }
    var created := HtmlDocumentNavigator.Create(t, t.nodes[element.value].owner, element, false);
    if created.Failure? {
      return Failure(created.error);
    }
    var nav := created.value;
    var it := engine(Start(nav.document, nav.Position(), nav.enableNamespaces), xpath.value);
    var result: seq<NodeId> := [];
    var i := 0;
    while i < |it|
      invariant 0 <= i <= |it|
      invariant |result| == i
      invariant forall k :: 0 <= k < i ==> result[k] == it[k].node
    {
      result := result + [it[i].node];
      i := i + 1;
    }
    assert result == Nodes(it);
    r := Success(result);
  }
}

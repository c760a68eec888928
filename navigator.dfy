/**
 * `HtmlDocumentNavigator`: the XPath cursor over a host document tree.
 *
 * Its state is a current node and an attribute index (-1 means "on the node
 * itself"), plus the fixed document, name table and namespace flag. The
 * inspection rules and the moves are first stated as pure functions of the
 * tree and a `Cursor`; the class's methods update the fields in place and are
 * proved against those functions.
 */
module Navigation {
  import opened Wrappers
  import opened Dom
  import opened NameTables

  /** System.Xml.XPath.XPathNodeType. */
  datatype XPathNodeType =
    Root | Element | Attribute | Namespace | Text | SignificantWhitespace | Whitespace
    | ProcessingInstruction | Comment | All

  /** System.Xml.XPath.XPathNamespaceScope. */
  datatype XPathNamespaceScope = ScopeAll | ScopeExcludeXml | ScopeLocal

  /** A navigator position: the current node and the attribute index. */
  datatype Cursor = Cursor(node: NodeId, attrIndex: int)

  // ---------------------------------------------------------------------------
  // Inspection
  // ---------------------------------------------------------------------------

  /** `HasAttributes`: the node is an element with at least one attribute. */
  function HasAttributesAt(t: Tree, n: NodeId): (r: bool)
    requires n in t.nodes
    ensures r ==> t.IsElement(n)
    ensures r <==> |t.Attributes(n)| > 0
  {
    t.IsElement(n) && |t.nodes[n].kind.attributes| > 0
  }

  /** `IsEmptyElement`: the node has no children, whatever the attribute index. */
  function IsEmptyElementAt(t: Tree, n: NodeId): (r: bool)
    requires n in t.nodes
    ensures r <==> t.nodes[n].firstChild.None?
  {
    !t.nodes[n].HasChildNodes()
  }

  /**
   * `CurrentElement.Attributes[_attrIndex]`: the attribute in the current slot.
   * Off an element there is no element to index (a null dereference); an index
   * outside the element's list yields no attribute to read.
   */
  function SlotAttribute(t: Tree, c: Cursor): (r: Result<AttrInfo>)
    requires c.node in t.nodes
    ensures r.Success? <==> t.IsElement(c.node) && 0 <= c.attrIndex < |t.Attributes(c.node)|
    ensures r.Success? ==> r.value == t.Attributes(c.node)[c.attrIndex]
    ensures !t.IsElement(c.node) ==> r == Failure(NullReference)
  {
    if !t.nodes[c.node].kind.ElementNode? then Failure(NullReference)
    else if 0 <= c.attrIndex < |t.nodes[c.node].kind.attributes| then
      Success(t.nodes[c.node].kind.attributes[c.attrIndex])
    else Failure(NoSuchAttribute)
  }

  /**
   * `LocalName` (before interning). On a slot it is the attribute's qualified
   * `Name`, not its `LocalName`; on an element its local name; otherwise the
   * node name.
   */
  function LocalNameAt(t: Tree, c: Cursor): (r: Result<string>)
    requires c.node in t.nodes
    ensures c.attrIndex == -1 ==> r.Success?
    ensures c.attrIndex == -1 && t.IsElement(c.node) ==> r.value == t.nodes[c.node].kind.localName
    ensures c.attrIndex == -1 && !t.IsElement(c.node) ==> r.value == t.nodes[c.node].nodeName
    ensures c.attrIndex != -1 ==> (r.Success? <==> SlotAttribute(t, c).Success?)
    ensures c.attrIndex != -1 && r.Success? ==> r.value == t.Attributes(c.node)[c.attrIndex].name
  {
    if c.attrIndex != -1 then
      match SlotAttribute(t, c)
      case Success(a) => Success(a.name)
      case Failure(e) => Failure(e)
    else if t.nodes[c.node].kind.ElementNode? then Success(t.nodes[c.node].kind.localName)
    else Success(t.nodes[c.node].nodeName)
  }

  /**
   * `NamespaceURI` (before interning): empty when namespaces are disabled;
   * otherwise the current element's namespace (empty when it has none or the
   * node is not an element). The attribute slot is never consulted.
   */
  function NamespaceUriAt(t: Tree, c: Cursor, enableNamespaces: bool): (r: string)
    requires c.node in t.nodes
    ensures !enableNamespaces ==> r == ""
    ensures !t.IsElement(c.node) ==> r == ""
    ensures enableNamespaces && t.IsElement(c.node) ==> r == t.nodes[c.node].kind.namespaceUri.GetOr("")
  {
    if !enableNamespaces then ""
    else if t.nodes[c.node].kind.ElementNode? then t.nodes[c.node].kind.namespaceUri.GetOr("")
    else ""
  }

  /** `Prefix` (before interning): as `NamespaceUriAt`, for the element's prefix. */
  function PrefixAt(t: Tree, c: Cursor, enableNamespaces: bool): (r: string)
    requires c.node in t.nodes
    ensures !enableNamespaces ==> r == ""
    ensures !t.IsElement(c.node) ==> r == ""
    ensures enableNamespaces && t.IsElement(c.node) ==> r == t.nodes[c.node].kind.prefix.GetOr("")
  {
    if !enableNamespaces then ""
    else if t.nodes[c.node].kind.ElementNode? then t.nodes[c.node].kind.prefix.GetOr("")
    else ""
  }

  /** `NodeType`: the XPath node kind reported for the position. */
  function NodeTypeAt(t: Tree, c: Cursor): (r: Result<XPathNodeType>)
    requires c.node in t.nodes
    ensures r == Success(Attribute) <==>
              t.nodes[c.node].kind.AttributeNode? || (t.IsElement(c.node) && c.attrIndex != -1)
    ensures r.Failure? <==>
              t.nodes[c.node].kind in {EntityNode, EntityReferenceNode, NotationNode, DocumentFragmentNode}
    ensures r.Failure? ==> r.error == NotImplemented
    ensures t.nodes[c.node].kind.DocumentNode? || t.nodes[c.node].kind.DocumentTypeNode? ==> r == Success(Element)
    ensures t.IsElement(c.node) && c.attrIndex == -1 ==> r == Success(Element)
    ensures t.nodes[c.node].kind.CharacterDataNode? || t.nodes[c.node].kind.TextNode? ==> r == Success(Text)
    ensures t.nodes[c.node].kind.CommentNode? ==> r == Success(Comment)
    ensures t.nodes[c.node].kind.ProcessingInstructionNode? ==> r == Success(ProcessingInstruction)
    ensures r != Success(Root) && r != Success(Namespace)
  {
    match t.nodes[c.node].kind
    case AttributeNode(_) => Success(Attribute)
    case CharacterDataNode(_) => Success(Text)
    case CommentNode(_) => Success(Comment)
    case DocumentNode(_, _) => Success(Element)
    case DocumentTypeNode(_) => Success(Element)
    case ElementNode(_, _, _, _) => if c.attrIndex != -1 then Success(Attribute) else Success(Element)
    case ProcessingInstructionNode(_) => Success(ProcessingInstruction)
    case TextNode => Success(Text)
    case EntityNode => Failure(NotImplemented)
    case EntityReferenceNode => Failure(NotImplemented)
    case NotationNode => Failure(NotImplemented)
    case DocumentFragmentNode => Failure(NotImplemented)
  }

  /** `Value`: the string value of the position. */
  function ValueAt(t: Tree, c: Cursor): (r: Result<string>)
    requires c.node in t.nodes
    ensures t.IsElement(c.node) && c.attrIndex != -1 ==>
              (r.Success? <==> 0 <= c.attrIndex < |t.Attributes(c.node)|) &&
              (r.Success? ==> r.value == t.Attributes(c.node)[c.attrIndex].value)
    ensures !(t.IsElement(c.node) && c.attrIndex != -1) ==> r.Success?
    ensures t.nodes[c.node].kind.AttributeNode? ==> r == Success(t.nodes[c.node].kind.attr.value)
    ensures t.IsElement(c.node) && c.attrIndex == -1 ==> r == Success(t.nodes[c.node].textContent)
    ensures t.nodes[c.node].kind.CharacterDataNode? || t.nodes[c.node].kind.CommentNode? ==>
              r == Success(t.nodes[c.node].kind.data)
    ensures t.nodes[c.node].kind.DocumentTypeNode? ==> r == Success(t.nodes[c.node].kind.name)
    ensures t.nodes[c.node].kind.ProcessingInstructionNode? ==> r == Success(t.nodes[c.node].kind.target)
    ensures (t.nodes[c.node].kind.DocumentNode? ||
             t.nodes[c.node].kind in {DocumentFragmentNode, EntityNode, EntityReferenceNode, NotationNode, TextNode}) ==>
              r == Success(t.nodes[c.node].textContent)
  {
    var n := t.nodes[c.node];
    match n.kind
    case AttributeNode(a) => Success(a.value)
    case CharacterDataNode(data) => Success(data)
    case CommentNode(data) => Success(data)
    case DocumentNode(_, _) => Success(n.textContent)
    case DocumentFragmentNode => Success(n.textContent)
    case DocumentTypeNode(name) => Success(name)
    case ElementNode(_, _, _, _) =>
      if c.attrIndex != -1 then
        match SlotAttribute(t, c)
        case Success(a) => Success(a.value)
        case Failure(e) => Failure(e)
      else Success(n.textContent)
    case EntityNode => Success(n.textContent)
    case EntityReferenceNode => Success(n.textContent)
    case NotationNode => Success(n.textContent)
    case ProcessingInstructionNode(target) => Success(target)
    case TextNode => Success(n.textContent)
  }

  // ---------------------------------------------------------------------------
  // Moves: None means the move fails and the position stays as it was
  // ---------------------------------------------------------------------------

  /** `MoveToFirstAttribute`: to slot 0 of an element that has attributes. */
  function FirstAttribute(t: Tree, c: Cursor): (r: Option<Cursor>)
    requires c.node in t.nodes
    ensures r.Some? <==> HasAttributesAt(t, c.node)
    ensures r.Some? ==> r.value.node == c.node
    ensures r.Some? ==> SlotAttribute(t, r.value) == Success(t.Attributes(c.node)[0])
  {
    if HasAttributesAt(t, c.node) then Some(Cursor(c.node, 0)) else None
  }

  /**
   * `MoveToNextAttribute`: one slot further, on an element whose index is
   * below its last slot. From -1 (on the element itself) it lands on slot 0.
   */
  function NextAttribute(t: Tree, c: Cursor): (r: Option<Cursor>)
    requires c.node in t.nodes
    ensures r.Some? <==> t.IsElement(c.node) && c.attrIndex < |t.Attributes(c.node)| - 1
    ensures r.Some? ==> r.value == Cursor(c.node, c.attrIndex + 1)
    ensures r.Some? && c.attrIndex >= -1 ==>
              SlotAttribute(t, r.value) == Success(t.Attributes(c.node)[c.attrIndex + 1])
  {
    if !t.nodes[c.node].kind.ElementNode? then None
    else if c.attrIndex >= |t.nodes[c.node].kind.attributes| - 1 then None
    else Some(Cursor(c.node, c.attrIndex + 1))
  }

  /**
   * `MoveToFirstChild`, `MoveToNext`, `MoveToPrevious`, `MoveToParent`: to the
   * node the link names, if any. The attribute index is carried over as it is.
   */
  function Follow(t: Tree, c: Cursor, l: Link): (r: Option<Cursor>)
    requires t.Valid() && c.node in t.nodes
    ensures r.Some? <==> t.nodes[c.node].Link(l).Some?
    ensures r.Some? ==> r.value.node == t.nodes[c.node].Link(l).value && r.value.node in t.nodes
    ensures r.Some? ==> r.value.attrIndex == c.attrIndex
  {
    match t.nodes[c.node].Link(l)
    case None => None
    case Some(n) => Some(Cursor(n, c.attrIndex))
  }

  /** `MoveToId`: to the element the document registers under `id`. */
  function ById(t: Tree, document: NodeId, c: Cursor, id: string): (r: Option<Cursor>)
    requires t.Valid() && t.IsDocument(document)
    ensures r.Some? <==> id in t.nodes[document].kind.ids
    ensures r.Some? ==> r.value.node == t.nodes[document].kind.ids[id] && t.IsElement(r.value.node)
    ensures r.Some? ==> r.value.attrIndex == c.attrIndex
  {
    match t.GetElementById(document, id)
    case None => None
    case Some(e) => Some(Cursor(e, c.attrIndex))
  }

  // ---------------------------------------------------------------------------
  // The navigator
  // ---------------------------------------------------------------------------

  class HtmlDocumentNavigator {
    const tree: Tree
    const document: NodeId
    const nameTable: NameTable
    const enableNamespaces: bool   // assigned only by the constructor
    var currentNode: NodeId
    var attrIndex: int

    /** The index is never below -1; it is NOT kept within the current element's attributes. */
    ghost predicate Valid()
      reads this
    {
      tree.Valid() && tree.IsDocument(document) && currentNode in tree.nodes && attrIndex >= -1
    }

    function Position(): Cursor
      reads this
    {
      Cursor(currentNode, attrIndex)
    }

    constructor (tree: Tree, document: NodeId, currentNode: NodeId, enableNamespaces: bool)
      requires tree.Valid() && tree.IsDocument(document) && currentNode in tree.nodes
      ensures Valid()
      ensures this.tree == tree && this.document == document && this.currentNode == currentNode
      ensures attrIndex == -1 && this.enableNamespaces == enableNamespaces
      ensures fresh(nameTable) && nameTable.names == {}
    {
      this.tree := tree;
      this.document := document;
      nameTable := new NameTable();
      this.currentNode := currentNode;
      attrIndex := -1;
      this.enableNamespaces := enableNamespaces;
    }

    /** The two-argument constructor: namespaces disabled. */
    constructor WithoutNamespaces(tree: Tree, document: NodeId, currentNode: NodeId)
      requires tree.Valid() && tree.IsDocument(document) && currentNode in tree.nodes
      ensures Valid()
      ensures this.tree == tree && this.document == document && this.currentNode == currentNode
      ensures attrIndex == -1 && !enableNamespaces
      ensures fresh(nameTable) && nameTable.names == {}
    {
      this.tree := tree;
      this.document := document;
      nameTable := new NameTable();
      this.currentNode := currentNode;
      attrIndex := -1;
      enableNamespaces := false;
    }

    /**
     * Construction with possibly-null arguments: a null document is rejected
     * first, then a null current node.
     */
    static method Create(tree: Tree, document: Option<NodeId>, currentNode: Option<NodeId>, enableNamespaces: bool)
      returns (r: Result<HtmlDocumentNavigator>)
      requires tree.Valid()
      requires document.Some? ==> tree.IsDocument(document.value)
      requires currentNode.Some? ==> currentNode.value in tree.nodes
      ensures document.None? ==> r == Failure(ArgumentNull("document"))
      ensures document.Some? && currentNode.None? ==> r == Failure(ArgumentNull("currentNode"))
      ensures r.Success? <==> document.Some? && currentNode.Some?
      ensures r.Success? ==>
                fresh(r.value) && fresh(r.value.nameTable) && r.value.Valid() &&
                r.value.tree == tree && r.value.document == document.value &&
                r.value.Position() == Cursor(currentNode.value, -1) &&
                r.value.enableNamespaces == enableNamespaces
    {
      if document.None? {
        return Failure(ArgumentNull("document"));
      }
      if currentNode.None? {
        return Failure(ArgumentNull("currentNode"));
      }
      var nav := new HtmlDocumentNavigator(tree, document.value, currentNode.value, enableNamespaces);
      r := Success(nav);
    }

    /** `CurrentNode`: the node under the cursor, whatever the attribute index. */
    function CurrentNode(): (r: NodeId)
      reads this
      requires Valid()
      ensures r in tree.nodes && r == Position().node
    {
      currentNode
    }

    /** `HasAttributes`: exactly when `MoveToFirstAttribute` would succeed. */
    function HasAttributes(): (r: bool)
      reads this
      requires Valid()
      ensures r <==> tree.IsElement(currentNode) && |tree.Attributes(currentNode)| > 0
      ensures r <==> FirstAttribute(tree, Position()).Some?
    {
      HasAttributesAt(tree, currentNode)
    }

    /** `IsEmptyElement`: exactly when `MoveToFirstChild` would fail. */
    function IsEmptyElement(): (r: bool)
      reads this
      requires Valid()
      ensures r <==> !tree.nodes[currentNode].HasChildNodes()
      ensures r <==> Follow(tree, Position(), FirstChildLink).None?
    {
      IsEmptyElementAt(tree, currentNode)
    }

    /** `NodeType` at the current position. */
    function NodeType(): (r: Result<XPathNodeType>)
      reads this
      requires Valid()
      ensures r == NodeTypeAt(tree, Position())
      ensures r == Success(Attribute) <==>
                tree.nodes[currentNode].kind.AttributeNode? || (tree.IsElement(currentNode) && attrIndex != -1)
    {
      NodeTypeAt(tree, Position())
    }

    /** `Value` at the current position; an element slot out of range fails. */
    function Value(): (r: Result<string>)
      reads this
      requires Valid()
      ensures r == ValueAt(tree, Position())
      ensures tree.IsElement(currentNode) && attrIndex != -1 ==>
                (r.Success? <==> attrIndex < |tree.Attributes(currentNode)|)
    {
      ValueAt(tree, Position())
    }

    /** `LocalName`: the local name of the position, interned in the name table. */
    method LocalName() returns (r: Result<string>)
      requires Valid()
      modifies nameTable
      ensures r == LocalNameAt(tree, Position())
      ensures r.Success? ==> nameTable.names == old(nameTable.names) + {r.value}
      ensures r.Failure? ==> nameTable.names == old(nameTable.names)
    {
      if attrIndex != -1 {
        var slot := SlotAttribute(tree, Position());
        if slot.Failure? {
          return Failure(slot.error);
        }
        var s := GetOrAdd(nameTable, slot.value.name);
        return Success(s);
      }
      if tree.nodes[currentNode].kind.ElementNode? {
        var s := GetOrAdd(nameTable, tree.nodes[currentNode].kind.localName);
        return Success(s);
      }
      var s := GetOrAdd(nameTable, tree.nodes[currentNode].nodeName);
      r := Success(s);
    }

    /** `Name`: the current node's name, interned; an attribute slot is ignored. */
    method Name() returns (r: string)
      requires Valid()
      modifies nameTable
      ensures r == tree.nodes[currentNode].nodeName
      ensures nameTable.names == old(nameTable.names) + {r}
    {
      r := GetOrAdd(nameTable, tree.nodes[currentNode].nodeName);
    }

    /** `NamespaceURI`: interned only when namespaces are enabled. */
    method NamespaceURI() returns (r: string)
      requires Valid()
      modifies nameTable
      ensures r == NamespaceUriAt(tree, Position(), enableNamespaces)
      ensures nameTable.names == if enableNamespaces then old(nameTable.names) + {r} else old(nameTable.names)
    {
      if !enableNamespaces {
        return "";
      }
      var ns := if tree.nodes[currentNode].kind.ElementNode? then tree.nodes[currentNode].kind.namespaceUri else None;
      r := GetOrAdd(nameTable, ns.GetOr(""));
    }

    /** `Prefix`: interned only when namespaces are enabled. */
    method Prefix() returns (r: string)
      requires Valid()
      modifies nameTable
      ensures r == PrefixAt(tree, Position(), enableNamespaces)
      ensures nameTable.names == if enableNamespaces then old(nameTable.names) + {r} else old(nameTable.names)
    {
      if !enableNamespaces {
        return "";
      }
      var p := if tree.nodes[currentNode].kind.ElementNode? then tree.nodes[currentNode].kind.prefix else None;
      r := GetOrAdd(nameTable, p.GetOr(""));
    }

    /** `Clone`: a new navigator on the same document and node, back on the node itself. */
    method Clone() returns (r: HtmlDocumentNavigator)
      requires Valid()
      ensures fresh(r) && fresh(r.nameTable) && r.Valid()
      ensures r.tree == tree && r.document == document && r.enableNamespaces == enableNamespaces
      ensures r.Position() == Cursor(currentNode, -1)
      ensures IsSamePosition(r) && r.IsSamePosition(this)
    {
      r := new HtmlDocumentNavigator(tree, document, currentNode, enableNamespaces);
    }

    /**
     * `IsSamePosition`: `other` (null standing for "not an
     * HtmlDocumentNavigator") is on the same node. Neither the documents nor
     * the attribute indexes are compared.
     */
    function IsSamePosition(other: HtmlDocumentNavigator?): (r: bool)
      reads this, other
      ensures r ==> other != null
      ensures other != null ==> (r <==> other.currentNode == currentNode)
    {
      other != null && other.currentNode == currentNode
    }

    /**
     * `MoveTo`: copies node and attribute index from a navigator over the same
     * document. A navigator over the same document is over the same tree.
     */
    method MoveTo(other: HtmlDocumentNavigator?) returns (moved: bool)
      requires Valid()
      requires other != null ==> other.Valid() && (other.document == document ==> other.tree == tree)
      modifies this`currentNode, this`attrIndex
      ensures Valid()
      ensures moved <==> other != null && other.document == document
      ensures moved ==> Position() == old(other.Position())
      ensures !moved ==> Position() == old(Position())
    {
      if other == null {
        return false;
      }
      if other.document == document {
        currentNode, attrIndex := other.currentNode, other.attrIndex;
        return true;
      }
      return false;
    }

    method MoveToFirstAttribute() returns (moved: bool)
      requires Valid()
      modifies this`attrIndex
      ensures Valid()
      ensures moved == FirstAttribute(tree, old(Position())).Some?
      ensures Position() == FirstAttribute(tree, old(Position())).GetOr(old(Position()))
    {
      if HasAttributes() {
        attrIndex := 0;
        return true;
      }
      return false;
    }

    method MoveToNextAttribute() returns (moved: bool)
      requires Valid()
      modifies this`attrIndex
      ensures Valid()
      ensures moved == NextAttribute(tree, old(Position())).Some?
      ensures Position() == NextAttribute(tree, old(Position())).GetOr(old(Position()))
    {
      if !tree.nodes[currentNode].kind.ElementNode? {
        return false;
      }
      if attrIndex >= |tree.nodes[currentNode].kind.attributes| - 1 {
        return false;
      }
      attrIndex := attrIndex + 1;
      return true;
    }

    method MoveToFirstChild() returns (moved: bool)
      requires Valid()
      modifies this`currentNode
      ensures Valid()
      ensures moved == Follow(tree, old(Position()), FirstChildLink).Some?
      ensures Position() == Follow(tree, old(Position()), FirstChildLink).GetOr(old(Position()))
    {
      var child := tree.nodes[currentNode].Link(FirstChildLink);
      if child.None? {
        return false;
      }
      currentNode := child.value;
      return true;
    }

    method MoveToNext() returns (moved: bool)
      requires Valid()
      modifies this`currentNode
      ensures Valid()
      ensures moved == Follow(tree, old(Position()), NextSiblingLink).Some?
      ensures Position() == Follow(tree, old(Position()), NextSiblingLink).GetOr(old(Position()))
    {
      var next := tree.nodes[currentNode].Link(NextSiblingLink);
      if next.None? {
        return false;
      }
      currentNode := next.value;
      return true;
    }

    method MoveToPrevious() returns (moved: bool)
      requires Valid()
      modifies this`currentNode
      ensures Valid()
      ensures moved == Follow(tree, old(Position()), PreviousSiblingLink).Some?
      ensures Position() == Follow(tree, old(Position()), PreviousSiblingLink).GetOr(old(Position()))
    {
      var previous := tree.nodes[currentNode].Link(PreviousSiblingLink);
      if previous.None? {
        return false;
      }
      currentNode := previous.value;
      return true;
    }

    /** `MoveToParent`: the node's parent, even when the index names an attribute slot. */
    method MoveToParent() returns (moved: bool)
      requires Valid()
      modifies this`currentNode
      ensures Valid()
      ensures moved == Follow(tree, old(Position()), ParentLink).Some?
      ensures Position() == Follow(tree, old(Position()), ParentLink).GetOr(old(Position()))
    {
      var parent := tree.nodes[currentNode].Link(ParentLink);
      if parent.None? {
        return false;
      }
      currentNode := parent.value;
      return true;
    }

    method MoveToId(id: string) returns (moved: bool)
      requires Valid()
      modifies this`currentNode
      ensures Valid()
      ensures moved == ById(tree, document, old(Position()), id).Some?
      ensures Position() == ById(tree, document, old(Position()), id).GetOr(old(Position()))
    {
      var elementById := tree.GetElementById(document, id);
      if elementById.None? {
        return false;
      }
      currentNode := elementById.value;
      return true;
    }

    /** `MoveToRoot`: to the document node itself; the attribute index is kept. */
    method MoveToRoot()
      requires Valid()
      modifies this`currentNode
      ensures Valid()
      ensures Position() == Cursor(document, old(attrIndex))
    {
      currentNode := document;
    }

    /** Namespace nodes are never exposed. */
    method MoveToFirstNamespace(scope: XPathNamespaceScope) returns (moved: bool)
      ensures !moved
    {
      return false;
    }

    method MoveToNextNamespace(scope: XPathNamespaceScope) returns (moved: bool)
      ensures !moved
    {
      return false;
    }
  }

  // ---------------------------------------------------------------------------
  // Properties of the cursor
  // ---------------------------------------------------------------------------

  /** The positions that repeated `MoveToNextAttribute` calls visit from `c`, up to the first failure. */
  function AttributeWalk(t: Tree, c: Cursor): (r: seq<Cursor>)
    requires c.node in t.nodes
    ensures forall k :: 0 <= k < |r| ==> r[k].node == c.node && r[k].attrIndex > c.attrIndex
    decreases |t.Attributes(c.node)| - c.attrIndex
  {
    match NextAttribute(t, c)
    case None => []
    case Some(next) => [next] + AttributeWalk(t, next)
  }

  /** From slot k of an element the walk visits exactly the slots k+1 .. n-1, in order. */
  lemma {:induction false} AttributeWalkFrom(t: Tree, e: NodeId, k: int)
    requires t.IsElement(e) && -1 <= k < |t.Attributes(e)|
    ensures |AttributeWalk(t, Cursor(e, k))| == |t.Attributes(e)| - 1 - k
    ensures forall j :: 0 <= j < |AttributeWalk(t, Cursor(e, k))| ==>
              AttributeWalk(t, Cursor(e, k))[j] == Cursor(e, k + 1 + j)
    decreases |t.Attributes(e)| - k
  {
    if k < |t.Attributes(e)| - 1 {
      AttributeWalkFrom(t, e, k + 1);
    }
  }

  /**
   * Attribute enumeration: from any index, `MoveToFirstAttribute` followed by
   * `MoveToNextAttribute` until it fails visits every attribute of the element
   * once, in stored order, each reported as an attribute node with that
   * attribute's name and value. Walking with `MoveToNextAttribute` alone from
   * the element itself (index -1) visits the same positions.
   */
  lemma AttributeEnumeration(t: Tree, e: NodeId, i: int)
    requires t.IsElement(e) && |t.Attributes(e)| > 0
    ensures FirstAttribute(t, Cursor(e, i)) == Some(Cursor(e, 0))
    ensures var visited := [Cursor(e, 0)] + AttributeWalk(t, Cursor(e, 0));
      && |visited| == |t.Attributes(e)|
      && visited == AttributeWalk(t, Cursor(e, -1))
      && NextAttribute(t, visited[|visited| - 1]).None?
      && forall k :: 0 <= k < |visited| ==>
           && NodeTypeAt(t, visited[k]) == Success(Attribute)
           && ValueAt(t, visited[k]) == Success(t.Attributes(e)[k].value)
           && LocalNameAt(t, visited[k]) == Success(t.Attributes(e)[k].name)
  {
    AttributeWalkFrom(t, e, 0);
    AttributeWalkFrom(t, e, -1);
    var visited := [Cursor(e, 0)] + AttributeWalk(t, Cursor(e, 0));
    assert forall k :: 0 <= k < |visited| ==> visited[k] == Cursor(e, k);
  }

  /**
   * Node moves never reset the index: after a move made on an attribute slot
   * that lands on an element, the navigator reports an attribute again.
   */
  lemma NodeMovesKeepAttributeIndex(t: Tree, c: Cursor, l: Link)
    requires t.Valid() && c.node in t.nodes && Follow(t, c, l).Some?
    ensures Follow(t, c, l).value.attrIndex == c.attrIndex
    ensures c.attrIndex != -1 && t.IsElement(Follow(t, c, l).value.node) ==>
              NodeTypeAt(t, Follow(t, c, l).value) == Success(Attribute)
  {
  }

  /** `MoveToFirstChild` then `MoveToParent` comes back to the same position. */
  lemma ChildThenParent(t: Tree, c: Cursor)
    requires t.Valid() && c.node in t.nodes && Follow(t, c, FirstChildLink).Some?
    ensures Follow(t, Follow(t, c, FirstChildLink).value, ParentLink) == Some(c)
  {
  }

  /** `MoveToNext` then `MoveToPrevious`, and the reverse, come back to the same position. */
  lemma SiblingMovesAreInverse(t: Tree, c: Cursor)
    requires t.Valid() && c.node in t.nodes
    ensures Follow(t, c, NextSiblingLink).Some? ==>
              Follow(t, Follow(t, c, NextSiblingLink).value, PreviousSiblingLink) == Some(c)
    ensures Follow(t, c, PreviousSiblingLink).Some? ==>
              Follow(t, Follow(t, c, PreviousSiblingLink).value, NextSiblingLink) == Some(c)
  {
  }

  /** `NamespaceURI` and `Prefix` do not depend on the attribute index. */
  lemma NodeLevelReadsIgnoreSlot(t: Tree, c: Cursor, enableNamespaces: bool)
    requires c.node in t.nodes
    ensures NamespaceUriAt(t, c, enableNamespaces) == NamespaceUriAt(t, Cursor(c.node, -1), enableNamespaces)
    ensures PrefixAt(t, c, enableNamespaces) == PrefixAt(t, Cursor(c.node, -1), enableNamespaces)
  {
  }

  /** `IsEmptyElement` holds exactly when `MoveToFirstChild` would fail. */
  lemma EmptyIffNoFirstChild(t: Tree, c: Cursor)
    requires t.Valid() && c.node in t.nodes
    ensures IsEmptyElementAt(t, c.node) <==> Follow(t, c, FirstChildLink).None?
  {
  }

  lemma SamePositionIsReflexive(a: HtmlDocumentNavigator)
    ensures a.IsSamePosition(a)
  {
  }

  lemma SamePositionIsSymmetric(a: HtmlDocumentNavigator, b: HtmlDocumentNavigator)
    ensures a.IsSamePosition(b) == b.IsSamePosition(a)
  {
  }
}

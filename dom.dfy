/**
 * The host document tree as the navigator sees it: an immutable snapshot of
 * AngleSharp's DOM. Nodes are identified by `NodeId`; the C# reference
 * equality between `INode` values becomes equality of ids.
 */
module Dom {
  import opened Wrappers

  type NodeId = nat

  /** One attribute of an element (AngleSharp's `IAttr`), in stored order. */
  datatype AttrInfo = AttrInfo(
    name: string,
    localName: string,
    namespaceUri: Option<string>,
    prefix: Option<string>,
    value: string)

  /**
   * The node kinds of AngleSharp's `NodeType` enumeration, each carrying what
   * the navigator reads from the node once it has cast it to its interface.
   */
  datatype NodeKind =
    | AttributeNode(attr: AttrInfo)                       // IAttr (only pseudo-nodes are of this kind)
    | CharacterDataNode(data: string)                     // ICharacterData.Data
    | CommentNode(data: string)                           // IComment.Data
    | DocumentNode(documentElement: Option<NodeId>,       // IDocument.DocumentElement
                   ids: map<string, NodeId>)              // IDocument.GetElementById
    | DocumentFragmentNode
    | DocumentTypeNode(name: string)                      // IDocumentType.Name
    | ElementNode(localName: string,
                  namespaceUri: Option<string>,
                  prefix: Option<string>,
                  attributes: seq<AttrInfo>)              // IElement
    | EntityNode
    | EntityReferenceNode
    | NotationNode
    | ProcessingInstructionNode(target: string)           // IProcessingInstruction.Target
    | TextNode

  /** The tree links of `INode`. */
  datatype Link = ParentLink | FirstChildLink | LastChildLink | NextSiblingLink | PreviousSiblingLink

  datatype Node = Node(
    kind: NodeKind,
    nodeName: string,
    textContent: string,            // computed by the host; not interpreted here
    parent: Option<NodeId>,
    firstChild: Option<NodeId>,
    lastChild: Option<NodeId>,
    nextSibling: Option<NodeId>,
    previousSibling: Option<NodeId>,
    owner: Option<NodeId>)          // INode.Owner, the owning document
  {
    function Link(l: Link): Option<NodeId> {
      match l
      case ParentLink => parent
      case FirstChildLink => firstChild
      case LastChildLink => lastChild
      case NextSiblingLink => nextSibling
      case PreviousSiblingLink => previousSibling
    }

    predicate HasChildNodes() {
      firstChild.Some?
    }
  }

  datatype Tree = Tree(nodes: map<NodeId, Node>) {

    predicate IsDocument(d: NodeId) {
      d in nodes && nodes[d].kind.DocumentNode?
    }

    predicate IsElement(e: NodeId) {
      e in nodes && nodes[e].kind.ElementNode?
    }

    /**
     * Every link, owner, document element and id entry names a node of the
     * tree of the right kind, and the child and sibling links agree with the
     * parent and opposite-sibling links.
     */
    ghost predicate Valid() {
      && (forall n, l :: n in nodes && nodes[n].Link(l).Some? ==> nodes[n].Link(l).value in nodes)
      && (forall n :: n in nodes && nodes[n].firstChild.Some? && nodes[n].firstChild.value in nodes ==>
            nodes[nodes[n].firstChild.value].parent == Some(n))
      && (forall n :: n in nodes && nodes[n].nextSibling.Some? && nodes[n].nextSibling.value in nodes ==>
            nodes[nodes[n].nextSibling.value].previousSibling == Some(n))
      && (forall n :: n in nodes && nodes[n].previousSibling.Some? && nodes[n].previousSibling.value in nodes ==>
            nodes[nodes[n].previousSibling.value].nextSibling == Some(n))
      && (forall n :: n in nodes && nodes[n].owner.Some? ==> IsDocument(nodes[n].owner.value))
      && (forall d :: IsDocument(d) && nodes[d].kind.documentElement.Some? ==>
            IsElement(nodes[d].kind.documentElement.value))
      && (forall d, id :: IsDocument(d) && id in nodes[d].kind.ids ==> IsElement(nodes[d].kind.ids[id]))
    }

    /** `IElement.Attributes` of an element; other nodes have none. */
    function Attributes(n: NodeId): (attrs: seq<AttrInfo>)
      requires n in nodes
      ensures !IsElement(n) ==> attrs == []
    {
      if nodes[n].kind.ElementNode? then nodes[n].kind.attributes else []
    }

    /** `IDocument.GetElementById`: the element registered under `id`, if any. */
    function GetElementById(d: NodeId, id: string): (r: Option<NodeId>)
      requires Valid() && IsDocument(d)
      ensures r.Some? <==> id in nodes[d].kind.ids
      ensures r.Some? ==> IsElement(r.value)
    {
      if id in nodes[d].kind.ids then Some(nodes[d].kind.ids[id]) else None
    }
  }
}

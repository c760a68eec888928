/**
 * `AttrNodeWrapper`: an attribute of an element presented as a leaf node.
 * It reads the wrapped attribute's fields through, writes values through to
 * the attribute, and refuses every structural operation.
 */
module AttrNodes {
  import opened Wrappers
  import opened Dom
  import opened Navigation

  /** The host's live attribute object (`IAttr`); only its value can change. */
  class Attr {
    const name: string
    const localName: string
    const namespaceUri: Option<string>
    const prefix: Option<string>
    var value: string

    constructor (name: string, localName: string, namespaceUri: Option<string>, prefix: Option<string>, value: string)
      ensures Info() == AttrInfo(name, localName, namespaceUri, prefix, value)
    {
      this.name := name;
      this.localName := localName;
      this.namespaceUri := namespaceUri;
      this.prefix := prefix;
      this.value := value;
    }

    /** The attribute's current fields. */
    function Info(): AttrInfo
      reads this
    {
      AttrInfo(name, localName, namespaceUri, prefix, value)
    }
  }

  /** A node-valued argument: a tree node, a wrapper, or null. */
  datatype NodeRef = TreeNode(id: NodeId) | WrapperNode(wrapper: AttrNodeWrapper) | NullNode

  /** The `INode` and `IEventTarget` members whose only behaviour is their outcome. */
  datatype NodeOperation =
    | AppendChild | CloneNode | CompareDocumentPosition | Contains | Dispatch | InsertBefore
    | IsDefaultNamespace | LookupNamespaceUri | LookupPrefix | Normalize | RemoveChild | ReplaceChild

  class AttrNodeWrapper {
    const attribute: Attr
    const parentElement: NodeId

    constructor (attribute: Attr, parentElement: NodeId)
      ensures this.attribute == attribute && this.parentElement == parentElement
    {
      this.attribute := attribute;
      this.parentElement := parentElement;
    }

    /** Construction with possibly-null arguments: the attribute is checked first. */
    static method Create(attribute: Attr?, parentElement: Option<NodeId>) returns (r: Result<AttrNodeWrapper>)
      ensures attribute == null ==> r == Failure(ArgumentNull("attribute"))
      ensures attribute != null && parentElement.None? ==> r == Failure(ArgumentNull("parentElement"))
      ensures r.Success? <==> attribute != null && parentElement.Some?
      ensures r.Success? ==> fresh(r.value) && r.value.attribute == attribute && r.value.parentElement == parentElement.value
    {
      if attribute == null {
        return Failure(ArgumentNull("attribute"));
      }
      if parentElement.None? {
        return Failure(ArgumentNull("parentElement"));
      }
      var w := new AttrNodeWrapper(attribute, parentElement.value);
      r := Success(w);
    }

    /**
     * The wrapper seen as an `IAttr`: `Name`, `LocalName`, `NamespaceUri`,
     * `Prefix` and `Value` are the wrapped attribute's own.
     */
    function AsAttr(): (r: AttrInfo)
      reads this, attribute
      ensures r.name == attribute.name && r.localName == attribute.localName
      ensures r.namespaceUri == attribute.namespaceUri && r.prefix == attribute.prefix
      ensures r.value == attribute.value
    {
      attribute.Info()
    }

    /**
     * The wrapper seen as an `INode`: an attribute-kind node named like the
     * attribute, whose text is the attribute's value, whose only link is the
     * parent (the owning element) and whose owner is that element's owner.
     */
    function AsNode(t: Tree): (r: Node)
      requires parentElement in t.nodes
      reads this, attribute
      ensures r.kind == AttributeNode(AsAttr()) && r.nodeName == AsAttr().name
      ensures r.textContent == AsAttr().value
      ensures forall l :: r.Link(l).Some? <==> l == ParentLink
      ensures r.parent == Some(parentElement)
      ensures !r.HasChildNodes()
      ensures r.owner == t.nodes[parentElement].owner
    {
      Node(AttributeNode(attribute.Info()), attribute.name, attribute.value,
           Some(parentElement), None, None, None, None, t.nodes[parentElement].owner)
    }

    /** `INode.NodeValue`: reads the value. */
    function NodeValue(): (r: string)
      reads this, attribute
      ensures r == AsAttr().value
    {
      attribute.value
    }

    /** `INode.TextContent`: reads the value. */
    function TextContent(): (r: string)
      reads this, attribute
      ensures r == AsAttr().value
    {
      attribute.value
    }

    /** `INode.Flags` as the flag enumeration's bit mask: `NodeFlags.None`, no flag set. */
    function Flags(): (r: nat)
      ensures r == 0
    {
      0
    }

    /** `INode.ChildNodes` is null. */
    function ChildNodes(): (r: Option<seq<NodeId>>)
      ensures r.None?
    {
      None
    }

    /** Setting `Value`: writes through to the attribute; nothing else changes. */
    method SetValue(v: string)
      modifies attribute
      ensures AsAttr() == old(AsAttr()).(value := v)
      ensures NodeValue() == v && TextContent() == v
    {
      attribute.value := v;
    }

    /** Setting `INode.NodeValue`: the same write as `SetValue`. */
    method SetNodeValue(v: string)
      modifies attribute
      ensures AsAttr() == old(AsAttr()).(value := v)
      ensures NodeValue() == v && TextContent() == v
    {
      SetValue(v);
    }

    /** Setting `INode.TextContent`: the same write as `SetValue`. */
    method SetTextContent(v: string)
      modifies attribute
      ensures AsAttr() == old(AsAttr()).(value := v)
      ensures NodeValue() == v && TextContent() == v
    {
      SetValue(v);
    }

    /**
     * `Equals(IAttr)`: the wrapped attribute's own `Equals`, given as
     * `attrEquals`, applied to the argument's fields.
     */
    function EqualsAttr(other: AttrInfo, attrEquals: (AttrInfo, AttrInfo) -> bool): (r: bool)
      reads this, attribute
      ensures r == attrEquals(AsAttr(), other)
    {
      attrEquals(attribute.Info(), other)
    }

    /**
     * `INode.Equals`: false for anything that is not a wrapper; for a wrapper,
     * the wrapped attribute's `Equals` applied to that wrapper seen as an `IAttr`.
     */
    function EqualsNode(other: NodeRef, attrEquals: (AttrInfo, AttrInfo) -> bool): (r: bool)
      reads this, attribute
      reads if other.WrapperNode? then {other.wrapper, other.wrapper.attribute} else {}
      ensures !other.WrapperNode? ==> !r
      ensures other.WrapperNode? ==> r == attrEquals(AsAttr(), other.wrapper.AsAttr())
    {
      match other
      case WrapperNode(w) => EqualsAttr(w.AsAttr(), attrEquals)
      case _ => false
    }

    /**
     * The remaining node operations: `Contains` and `Dispatch` answer false,
     * every other one throws `NotSupportedException`. Their arguments play no part.
     */
    function Perform(op: NodeOperation): (r: Result<bool>)
      ensures r.Success? <==> op == Contains || op == Dispatch
      ensures r.Success? ==> !r.value
      ensures r.Failure? ==> r.error == NotSupported
    {
      match op
      case Contains => Success(false)
      case Dispatch => Success(false)
      case _ => Failure(NotSupported)
    }

    /** `ToHtml`: `Name="Value"`, with the value written as it is. */
    function ToHtml(): (r: string)
      reads this, attribute
      ensures |r| == |AsAttr().name| + |AsAttr().value| + 3
      ensures r[..|AsAttr().name|] == AsAttr().name
      ensures r[|AsAttr().name|..|AsAttr().name| + 2] == "=\""
      ensures r[|AsAttr().name| + 2..|r| - 1] == AsAttr().value
      ensures r[|r| - 1] == '"'
    {
      attribute.name + "=\"" + attribute.value + "\""
    }
  }

  /**
   * A wrapper placed in a tree is reported by the navigator as an attribute
   * node, on the node itself as on any slot: its value and local name are the
   * wrapped attribute's value and name, and `MoveToParent` leads to the
   * owning element.
   */
  lemma WrapperSeenByNavigator(t: Tree, w: AttrNodeWrapper, id: NodeId, i: int)
    requires t.Valid() && w.parentElement in t.nodes
    requires id in t.nodes && t.nodes[id] == w.AsNode(t)
    ensures NodeTypeAt(t, Cursor(id, i)) == Success(Attribute)
    ensures ValueAt(t, Cursor(id, i)) == Success(w.attribute.value)
    ensures LocalNameAt(t, Cursor(id, -1)) == Success(w.attribute.name)
    ensures Follow(t, Cursor(id, i), ParentLink) == Some(Cursor(w.parentElement, i))
    ensures Follow(t, Cursor(id, i), FirstChildLink).None?
  {
    assert t.nodes[id].kind == AttributeNode(w.AsAttr());
  }
}

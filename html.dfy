/** The parsed HTML document tree the analyzer walks. A node's children are
    kept in order, standing for the `FirstChild`/`NextSibling` chain of the
    parser's node objects. */
module Html {

  /** The kinds of node the HTML parser produces. */
  datatype NodeType = ErrorNode | TextNode | DocumentNode | ElementNode | CommentNode | DoctypeNode | RawNode

  datatype Attribute = Attribute(key: string, val: string)

  /** `data` is the tag name of an element and the text of a text node. */
  datatype Node = Node(kind: NodeType, data: string, attrs: seq<Attribute>, children: seq<Node>)

  predicate IsElement(n: Node, tag: string) {
    n.kind == ElementNode && n.data == tag
  }

  /** The nodes of the tree rooted at `n` in depth-first pre-order: a node
      before its children, children left to right. */
  function PreOrder(n: Node): (r: seq<Node>)
    ensures r != [] && r[0] == n
    decreases n, 1
  {
    [n] + PreOrderAll(n.children)
  }

  /** The pre-orders of the trees `cs`, one after the other. */
  function PreOrderAll(cs: seq<Node>): seq<Node>
    decreases cs, 0
  {
    if cs == [] then [] else PreOrder(cs[0]) + PreOrderAll(cs[1..])
  }

  lemma {:induction false} PreOrderAllAppend(a: seq<Node>, b: seq<Node>)
    ensures PreOrderAll(a + b) == PreOrderAll(a) + PreOrderAll(b)
    decreases |a|
  {
    if a == [] {
      assert a + b == b;
    } else {
      assert (a + b)[0] == a[0];
      assert (a + b)[1..] == a[1..] + b;
      PreOrderAllAppend(a[1..], b);
    }
  }

  /** Adding one more child tree appends its pre-order. */
  lemma PreOrderAllSnoc(cs: seq<Node>, j: nat)
    requires j < |cs|
    ensures PreOrderAll(cs[..j + 1]) == PreOrderAll(cs[..j]) + PreOrder(cs[j])
  {
    assert cs[..j + 1] == cs[..j] + [cs[j]];
    PreOrderAllAppend(cs[..j], [cs[j]]);
    assert [cs[j]][1..] == [];
  }
}

/** The document tree the wiki markup parser hands back (nodes of Go's
    `golang.org/x/net/html` package), and the `//h2` query run over it. */
module Dom {

  /** `html.NodeType`. */
  datatype NodeType = ErrorNode | TextNode | DocumentNode | ElementNode | CommentNode | DoctypeNode | RawNode

  /** A node of the tree: its type, its `Data` (the tag name of an element,
      the text of a text node), its children in document order, and the text
      `htmlquery.InnerText` renders for it. The renderer belongs to the query
      library, so the model takes its output as given rather than computing it. */
  datatype Node = Node(kind: NodeType, data: string, children: seq<Node>, innerText: string)

  /** A node as a query hands it back: the node itself together with the
      chain its `NextSibling` links run through, i.e. the siblings that follow
      it under its parent, in order. Following that chain past its last
      element reaches nil. */
  datatype Located = Located(node: Node, following: seq<Node>)

  predicate IsH2(n: Node) {
    n.kind == ElementNode && n.data == "h2"
  }

  /** The `h2` elements among the descendants of `n` that lie in or under its
      children from index `i` on, in document order (each element before the
      elements inside it, and before its later siblings). */
  function H2From(n: Node, i: nat): (r: seq<Located>)
    requires i <= |n.children|
    ensures forall k :: 0 <= k < |r| ==> IsH2(r[k].node)
    ensures forall k :: i <= k < |n.children| && IsH2(n.children[k]) ==>
              Located(n.children[k], n.children[k + 1..]) in r
    decreases n, |n.children| - i
  {
    if i == |n.children| then []
    else
      var c := n.children[i];
      var here := if IsH2(c) then [Located(c, n.children[i + 1..])] else [];
      here + H2From(c, 0) + H2From(n, i + 1)
  }

  /** `l` is a node of the tree below `n` that lies in or under one of its
      children from index `i` on, paired with the siblings that really follow
      it under its own parent. */
  ghost predicate Under(n: Node, i: nat, l: Located)
    decreases n
  {
    exists j :: i <= j < |n.children| &&
      (l == Located(n.children[j], n.children[j + 1..]) || Under(n.children[j], 0, l))
  }

  /** The positions under `n` from child `i` on are those of child `i`
      itself, those under child `i`, and those from child `i + 1` on. */
  lemma UnderStep(n: Node, i: nat, l: Located)
    requires i < |n.children|
    ensures Under(n, i, l) <==>
              l == Located(n.children[i], n.children[i + 1..]) || Under(n.children[i], 0, l) || Under(n, i + 1, l)
  {
    if Under(n, i, l) {
      var j :| i <= j < |n.children| &&
        (l == Located(n.children[j], n.children[j + 1..]) || Under(n.children[j], 0, l));
      if j > i { assert Under(n, i + 1, l); }
    }
  }

  /** `H2From` collects exactly the `h2` elements in or under the children of
      `n` from index `i` on, each with its real following siblings: no node
      is missed, however deep, and nothing else is collected. */
  lemma {:induction false} H2FromIsDescendants(n: Node, i: nat)
    requires i <= |n.children|
    ensures forall l :: l in H2From(n, i) <==> Under(n, i, l) && IsH2(l.node)
    decreases n, |n.children| - i
  {
    if i == |n.children| {
      forall l ensures !Under(n, i, l) {}
    } else {
      var c := n.children[i];
      H2FromIsDescendants(c, 0);
      H2FromIsDescendants(n, i + 1);
      forall l ensures l in H2From(n, i) <==> Under(n, i, l) && IsH2(l.node) {
        UnderStep(n, i, l);
      }
    }
  }

  /** `htmlquery.QueryAll(root, "//h2")`: every `h2` element below `root`, in
      document order, each with the siblings that follow it. */
  function QueryAllH2(root: Node): (r: seq<Located>)
    ensures forall k :: 0 <= k < |r| ==> IsH2(r[k].node)
    ensures forall k :: 0 <= k < |root.children| && IsH2(root.children[k]) ==>
              Located(root.children[k], root.children[k + 1..]) in r
  {
    H2From(root, 0)
  }

  /** `//h2` finds every `h2` element anywhere below `root` and nothing else,
      each paired with the siblings that follow it under its parent. */
  lemma QueryAllH2IsDescendants(root: Node)
    ensures forall l :: l in QueryAllH2(root) <==> Under(root, 0, l) && IsH2(l.node)
  {
    H2FromIsDescendants(root, 0);
  }

  /** An `h2` nested two levels down is found, with no siblings after it. */
  lemma NestedH2Found(inner: Node)
    requires IsH2(inner)
    ensures var div := Node(ElementNode, "div", [Node(ElementNode, "div", [inner], "")], "");
            Located(inner, []) in QueryAllH2(div)
  {
    var mid := Node(ElementNode, "div", [inner], "");
    var div := Node(ElementNode, "div", [mid], "");
    assert mid.children[0] == inner && mid.children[1..] == [];
    assert Under(mid, 0, Located(inner, []));
    assert div.children[0] == mid;
    assert Under(div, 0, Located(inner, []));
    QueryAllH2IsDescendants(div);
  }
}

/**
 * The rehype plugin that restores a stored table-of-contents node and turns
 * its ordered lists into unordered ones by renaming every `ol` element to
 * `ul`, in place, throughout the tree.
 *
 * A node's type and children never change here; only `tagName` is
 * assigned. `height` is a ghost bound on the depth of the tree below a
 * node: `Valid` says that it decreases towards the leaves, i.e. that the
 * structure is a finite acyclic graph (children may be shared).
 */
module RelocateToc {
  import opened Wrappers

  const ELEMENT: string := "element"

  class HtmlNode {
    const nodeType: string
    var tagName: string
    const children: Option<seq<HtmlNode>>
    ghost const height: nat

    ghost predicate Valid()
      decreases height
    {
      children.Some? ==> forall c :: c in children.value ==> c.height < height && c.Valid()
    }

    constructor (nodeType: string, tagName: string, children: Option<seq<HtmlNode>>)
      requires children.Some? ==> forall c :: c in children.value ==> c.Valid()
      ensures this.nodeType == nodeType && this.tagName == tagName && this.children == children
      ensures Valid()
    {
      this.nodeType := nodeType;
      this.tagName := tagName;
      this.children := children;
      this.height := if children.Some? then 1 + MaxHeight(children.value) else 0;
    }
  }

  ghost function MaxHeight(nodes: seq<HtmlNode>): (h: nat)
    ensures forall c :: c in nodes ==> c.height <= h
  {
    if nodes == [] then 0
    else
      var rest := MaxHeight(nodes[1..]);
      assert forall c :: c in nodes ==> c == nodes[0] || c in nodes[1..];
      if nodes[0].height > rest then nodes[0].height else rest
  }

  /** The nodes of the subtree rooted at `n`, `n` included. */
  ghost function SubtreeNodes(n: HtmlNode): set<HtmlNode>
    requires n.Valid()
    decreases n.height, 1
  {
    {n} + (if n.children.Some? then ForestNodes(n.children.value, n.height) else {})
  }

  /** The nodes of the subtrees rooted at `nodes`; `bound` exceeds their heights. */
  ghost function ForestNodes(nodes: seq<HtmlNode>, bound: nat): set<HtmlNode>
    requires forall c :: c in nodes ==> c.Valid() && c.height < bound
    decreases bound, 0
  {
    set c, n | c in nodes && n in SubtreeNodes(c) :: n
  }

  /** The tag a node ends up with: an `ol` element becomes `ul`, every other node keeps its tag. */
  function Rewritten(nodeType: string, tagName: string): (tag: string)
    ensures tag != tagName <==> nodeType == ELEMENT && tagName == "ol"
    ensures nodeType == ELEMENT ==> tag != "ol"
  {
    if nodeType == ELEMENT && tagName == "ol" then "ul" else tagName
  }

  /** Rewriting an already rewritten tag changes nothing. */
  lemma RewrittenIdempotent(nodeType: string, tagName: string)
    ensures Rewritten(nodeType, Rewritten(nodeType, tagName)) == Rewritten(nodeType, tagName)
  {
  }

  lemma {:induction false} ChildSubtreeInForest(nodes: seq<HtmlNode>, bound: nat, i: nat)
    requires forall c :: c in nodes ==> c.Valid() && c.height < bound
    requires i < |nodes|
    ensures SubtreeNodes(nodes[i]) <= ForestNodes(nodes, bound)
    ensures nodes[i].children.Some? ==>
      ForestNodes(nodes[i].children.value, nodes[i].height) <= ForestNodes(nodes, bound)
  {
    assert nodes[i] in nodes;
  }

  /**
   * `replaceOlToUl`: walks the given nodes and, recursively, the children
   * of every node that has them, element or not, and renames each `ol`
   * element to `ul`. Every node reached ends with the rewritten form of the
   * tag it had on entry; nothing outside the walked trees changes.
   */
  method ReplaceOlToUl(children: seq<HtmlNode>, ghost bound: nat)
    requires forall c :: c in children ==> c.Valid() && c.height < bound
    modifies ForestNodes(children, bound)
    ensures forall n :: n in ForestNodes(children, bound) && old(allocated(n)) ==> n.tagName == Rewritten(n.nodeType, old(n.tagName))
    decreases bound, 0
  {
    ghost var all := ForestNodes(children, bound);
    var i := 0;
    while i < |children|
      invariant 0 <= i <= |children|
      invariant forall n :: n in all ==> old(allocated(n)) ==> n.tagName == old(n.tagName) || n.tagName == Rewritten(n.nodeType, old(n.tagName))
      invariant forall n :: n in ForestNodes(children[..i], bound) && old(allocated(n)) ==> n.tagName == Rewritten(n.nodeType, old(n.tagName))
    {
      ChildSubtreeInForest(children, bound, i);
      RewriteNode(children[i]);
      assert forall c :: c in children[..i + 1] ==> c in children[..i] || c == children[i];
      i := i + 1;
    }
    assert children[..i] == children;
  }

  /** The callback `replaceOlToUl` runs on each child: rename the child itself, then walk its children. */
  method RewriteNode(child: HtmlNode)
    requires child.Valid()
    modifies SubtreeNodes(child)
    ensures forall n :: n in SubtreeNodes(child) && old(allocated(n)) ==> n.tagName == Rewritten(n.nodeType, old(n.tagName))
    decreases child.height, 1
  {
    if child.nodeType == ELEMENT && child.tagName == "ol" {
      child.tagName := "ul";
    }
    if child.children.Some? {
      ReplaceOlToUl(child.children.value, child.height);
    }
  }

  /** Rewriting a tree twice leaves it as rewriting it once does. */
  method ReplaceOlToUlTwice(children: seq<HtmlNode>, ghost bound: nat)
    requires forall c :: c in children ==> c.Valid() && c.height < bound
    modifies ForestNodes(children, bound)
    ensures forall n :: n in ForestNodes(children, bound) && old(allocated(n)) ==> n.tagName == Rewritten(n.nodeType, old(n.tagName))
  {
    ReplaceOlToUl(children, bound);
    ReplaceOlToUl(children, bound);
  }

  /**
   * `customizeTOC` of the restore plugin: with a stored TOC node, rewrites
   * its lists and returns it; without one, returns nothing.
   */
  method CustomizeToc(tocNode: HtmlNode?) returns (r: HtmlNode?)
    requires tocNode != null ==> tocNode.Valid()
    modifies if tocNode != null then SubtreeNodes(tocNode) else {}
    ensures r == tocNode
    ensures tocNode != null ==> forall n :: n in SubtreeNodes(tocNode) && old(allocated(n)) ==> n.tagName == Rewritten(n.nodeType, old(n.tagName))
  {
    if tocNode != null {
      assert ForestNodes([tocNode], tocNode.height + 1) == SubtreeNodes(tocNode);
      ReplaceOlToUl([tocNode], tocNode.height + 1);
      return tocNode;
    }
    return null;
  }

  /** A concrete tree: an `ol` under a `ul` under a root node is renamed, the text node is not. */
  method NestedListExample() returns (root: HtmlNode, list: HtmlNode, text: HtmlNode)
    ensures list.tagName == "ul" && text.tagName == "" && root.tagName == ""
  {
    text := new HtmlNode("text", "", None);
    list := new HtmlNode(ELEMENT, "ol", Some([text]));
    var outer := new HtmlNode(ELEMENT, "ul", Some([list]));
    root := new HtmlNode("root", "", Some([outer]));
    assert ForestNodes([text], list.height) == SubtreeNodes(text) == {text};
    assert SubtreeNodes(list) == {list, text};
    assert ForestNodes([list], outer.height) == SubtreeNodes(list);
    assert SubtreeNodes(outer) == {outer, list, text};
    assert ForestNodes([outer], root.height) == SubtreeNodes(outer);
    assert SubtreeNodes(root) == {root, outer, list, text};
    var r := CustomizeToc(root);
  }
}

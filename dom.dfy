/**
 * The part of the page the content script reads and writes: element records keyed by
 * identity, the document order, what each of the four user-message selectors matches, and
 * which elements have a non-empty bounding box. Selector matching and layout are inputs.
 */
module Dom {
  import opened Wrappers

  /** The identity of an element (what a JavaScript `Set` of nodes compares). */
  type NodeRef = nat

  /**
   * The attributes of an element the script touches: the `data-cgpt-anchor` attribute
   * (absent or present), the `id` property (empty when unset), `innerText`, `textContent`,
   * and the `data-message-id` attribute.
   */
  datatype Node = Node(
    anchor: Option<string>,
    id: string,
    innerText: string,
    textContent: string,
    messageId: Option<string>)

  /** The selectors for user-authored messages, in the order they are queried. */
  const UserSelectors: seq<string> := [
    "[data-message-author-role=\"user\"]",
    "[data-testid=\"user-message\"]",
    ".text-base[data-role=\"user\"]",
    "div[data-testid=\"conversation-turn\"][data-is-user=\"true\"]"
  ]

  /** The position of the first of `refs` whose record satisfies `p`, if any. */
  function FirstWhere(refs: seq<NodeRef>, nodes: map<NodeRef, Node>, p: Node -> bool): (r: Option<nat>)
    requires forall x :: x in refs ==> x in nodes
    ensures r.Some? ==> r.value < |refs| && p(nodes[refs[r.value]])
    ensures r.Some? ==> forall k :: 0 <= k < r.value ==> !p(nodes[refs[k]])
    ensures r.None? ==> forall k :: 0 <= k < |refs| ==> !p(nodes[refs[k]])
  {
    if refs == [] then None
    else if p(nodes[refs[0]]) then Some(0)
    else match FirstWhere(refs[1..], nodes, p)
      case None => None
      case Some(k) => Some(k + 1)
  }

  class Page {
    /** Attributes of every element, by identity. */
    var nodes: map<NodeRef, Node>
    /** Every element, in document order. */
    var tree: seq<NodeRef>
    /** `document.querySelectorAll(UserSelectors[i])` for each i, each in document order. */
    var matches: seq<seq<NodeRef>>
    /** The elements whose bounding box has positive width and height. */
    var visible: set<NodeRef>

    predicate Valid()
      reads this
    {
      && |matches| == |UserSelectors|
      && (forall x :: x in tree ==> x in nodes)
      && (forall i, x :: 0 <= i < |matches| && x in matches[i] ==> x in tree)
    }

    constructor (nodes: map<NodeRef, Node>, tree: seq<NodeRef>, matches: seq<seq<NodeRef>>, visible: set<NodeRef>)
      requires |matches| == |UserSelectors|
      requires forall x :: x in tree ==> x in nodes
      requires forall i, x :: 0 <= i < |matches| && x in matches[i] ==> x in tree
      ensures Valid()
      ensures this.nodes == nodes && this.tree == tree && this.matches == matches && this.visible == visible
    {
      this.nodes := nodes;
      this.tree := tree;
      this.matches := matches;
      this.visible := visible;
    }

    /** `document.getElementById(id)`: the first element in document order with that id; never one for "". */
    function GetElementById(id: string): (r: Option<NodeRef>)
      reads this
      requires Valid()
      ensures r.Some? ==> id != "" && r.value in nodes && nodes[r.value].id == id
      ensures r.Some? ==> exists k :: 0 <= k < |tree| && tree[k] == r.value &&
                            forall j :: 0 <= j < k ==> nodes[tree[j]].id != id
      ensures r.None? ==> id == "" || forall k :: 0 <= k < |tree| ==> nodes[tree[k]].id != id
    {
      if id == "" then None
      else match FirstWhere(tree, nodes, (n: Node) => n.id == id)
        case None => None
        case Some(k) => Some(tree[k])
    }

    /** When the first element in document order holds `id`, it is the one `getElementById` returns, whoever else holds it. */
    lemma {:induction false} FirstHolderFound(id: string)
      requires Valid() && tree != [] && id != ""
      requires nodes[tree[0]].id == id
      ensures GetElementById(id) == Some(tree[0])
    {
    }

    /** `document.querySelector('[data-message-id="…"]')` with the target escaped: exact match, first in document order. */
    function QueryMessageId(target: string): (r: Option<NodeRef>)
      reads this
      requires Valid()
      ensures r.Some? ==> r.value in nodes && nodes[r.value].messageId == Some(target)
      ensures r.Some? ==> exists k :: 0 <= k < |tree| && tree[k] == r.value &&
                            forall j :: 0 <= j < k ==> nodes[tree[j]].messageId != Some(target)
      ensures r.None? ==> forall k :: 0 <= k < |tree| ==> nodes[tree[k]].messageId != Some(target)
    {
      match FirstWhere(tree, nodes, (n: Node) => n.messageId == Some(target))
      case None => None
      case Some(k) => Some(tree[k])
    }
  }
}

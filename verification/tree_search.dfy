/** The kiosk's two queries over the content forest, `findNodeById` and
    `findParentNode`, both depth-first, a node before its children and earlier
    siblings before later ones. Each is proved equal to a linear search over
    the forest's pre-order listing, which is the reference definition. */
module TreeSearch {
  import opened Common
  import opened Entities

  /** The forest in pre-order: each node, then its subtree, then its later
      siblings. */
  function Flatten(nodes: seq<Node>): (r: seq<Node>)
    decreases nodes
  {
    if nodes == [] then [] else [nodes[0]] + FlattenBelow(nodes[0]) + Flatten(nodes[1..])
  }

  /** The proper descendants of a node, in pre-order. */
  function FlattenBelow(n: Node): (r: seq<Node>)
    decreases n
  {
    match n.children
    case Absent => []
    case Present(ks) => Flatten(ks)
  }

  /** The first element of `s` satisfying `p`. */
  function FirstMatch(s: seq<Node>, p: Node -> bool): (r: Option<Node>)
    ensures r.Some? ==> r.value in s && p(r.value)
    ensures r.None? <==> forall j :: 0 <= j < |s| ==> !p(s[j])
  {
    if s == [] then None else if p(s[0]) then Some(s[0]) else FirstMatch(s[1..], p)
  }

  lemma {:induction false} FirstMatchAppend(a: seq<Node>, b: seq<Node>, p: Node -> bool)
    ensures FirstMatch(a + b, p) == if FirstMatch(a, p).Some? then FirstMatch(a, p) else FirstMatch(b, p)
  {
    if a != [] {
      assert (a + b)[1..] == a[1..] + b;
      FirstMatchAppend(a[1..], b, p);
    } else {
      assert a + b == b;
    }
  }

  /** The test `findNodeById` applies to each node. */
  function IdIs(id: string): Node -> bool {
    (n: Node) => n.id == id
  }

  /** `findNodeById`: depth-first search for the first node carrying `id`. */
  function FindNodeById(nodes: seq<Node>, id: string): (r: Option<Node>)
    ensures r.Some? ==> r.value.id == id
    decreases nodes
  {
    if nodes == [] then None
    else if nodes[0].id == id then Some(nodes[0])
    else match FindBelow(nodes[0], id)
      case Some(found) => Some(found)
      case None => FindNodeById(nodes[1..], id)
  }

  /** The recursion into one node's children, taken only when it has some. */
  function FindBelow(n: Node, id: string): (r: Option<Node>)
    ensures r.Some? ==> r.value.id == id
    decreases n
  {
    match n.children
    case Present(ks) => if |ks| > 0 then FindNodeById(ks, id) else None
    case Absent => None
  }

  /** The search finds the first node in pre-order with the id; so it returns
      null exactly when no node anywhere in the forest carries it. */
  lemma {:induction false} FindNodeByIdIsPreorderFirst(nodes: seq<Node>, id: string)
    ensures FindNodeById(nodes, id) == FirstMatch(Flatten(nodes), IdIs(id))
    decreases nodes
  {
    if nodes != [] {
      var p := IdIs(id);
      FirstMatchAppend([nodes[0]] + FlattenBelow(nodes[0]), Flatten(nodes[1..]), p);
      FirstMatchAppend([nodes[0]], FlattenBelow(nodes[0]), p);
      FindBelowIsPreorderFirst(nodes[0], id);
      FindNodeByIdIsPreorderFirst(nodes[1..], id);
    }
  }

  lemma {:induction false} FindBelowIsPreorderFirst(n: Node, id: string)
    ensures FindBelow(n, id) == FirstMatch(FlattenBelow(n), IdIs(id))
    decreases n
  {
    match n.children
    case Absent =>
    case Present(ks) => FindNodeByIdIsPreorderFirst(ks, id);
  }

  /** Found iff some node of the forest has the id; what is found belongs to
      the forest. */
  lemma FindNodeByIdComplete(nodes: seq<Node>, id: string)
    ensures FindNodeById(nodes, id).None? <==> forall n :: n in Flatten(nodes) ==> n.id != id
    ensures FindNodeById(nodes, id).Some? ==> FindNodeById(nodes, id).value in Flatten(nodes)
  {
    FindNodeByIdIsPreorderFirst(nodes, id);
  }

  /** `node.children?.some(c => c._id === childId)`. */
  predicate HasChildWithId(n: Node, childId: string) {
    exists c :: c in Kids(n) && c.id == childId
  }

  /** The test `findParentNode` applies to each node. */
  function ParentOf(childId: string): Node -> bool {
    (n: Node) => HasChildWithId(n, childId)
  }

  /** `findParentNode`: depth-first search for the first node one of whose
      direct children carries `childId`. */
  function FindParentNode(nodes: seq<Node>, childId: string): (r: Option<Node>)
    ensures r.Some? ==> HasChildWithId(r.value, childId)
    decreases nodes
  {
    if nodes == [] then None
    else if HasChildWithId(nodes[0], childId) then Some(nodes[0])
    else match FindParentBelow(nodes[0], childId)
      case Some(deeper) => Some(deeper)
      case None => FindParentNode(nodes[1..], childId)
  }

  /** `findParentNode(node.children || [], childId)`; a missing children
      field is searched as the empty list, which finds nothing. */
  function FindParentBelow(n: Node, childId: string): (r: Option<Node>)
    ensures r.Some? ==> HasChildWithId(r.value, childId)
    decreases n
  {
    match n.children
    case Present(ks) => FindParentNode(ks, childId)
    case Absent => None
  }

  lemma {:induction false} FindParentNodeIsPreorderFirst(nodes: seq<Node>, childId: string)
    ensures FindParentNode(nodes, childId) == FirstMatch(Flatten(nodes), ParentOf(childId))
    decreases nodes
  {
    if nodes != [] {
      var p := ParentOf(childId);
      FirstMatchAppend([nodes[0]] + FlattenBelow(nodes[0]), Flatten(nodes[1..]), p);
      FirstMatchAppend([nodes[0]], FlattenBelow(nodes[0]), p);
      FindParentBelowIsPreorderFirst(nodes[0], childId);
      FindParentNodeIsPreorderFirst(nodes[1..], childId);
    }
  }

  lemma {:induction false} FindParentBelowIsPreorderFirst(n: Node, childId: string)
    ensures FindParentBelow(n, childId) == FirstMatch(FlattenBelow(n), ParentOf(childId))
    decreases n
  {
    match n.children
    case Absent =>
    case Present(ks) => FindParentNodeIsPreorderFirst(ks, childId);
  }

  /** Null exactly when no node of the forest has a direct child with the id;
      otherwise the parent returned belongs to the forest. */
  lemma FindParentNodeComplete(nodes: seq<Node>, childId: string)
    ensures FindParentNode(nodes, childId).None? <==> forall n :: n in Flatten(nodes) ==> !HasChildWithId(n, childId)
    ensures FindParentNode(nodes, childId).Some? ==> FindParentNode(nodes, childId).value in Flatten(nodes)
  {
    FindParentNodeIsPreorderFirst(nodes, childId);
  }

  /** The descendants of the roots, i.e. every node of the forest that has a
      parent. */
  function Descendants(nodes: seq<Node>): seq<Node> {
    if nodes == [] then [] else FlattenBelow(nodes[0]) + Descendants(nodes[1..])
  }

  /** A direct child of any node of the forest is a descendant of a root. */
  lemma {:induction false} ChildIsDescendant(nodes: seq<Node>, p: Node, c: Node)
    requires p in Flatten(nodes) && c in Kids(p)
    ensures c in Descendants(nodes)
    decreases nodes
  {
    if p == nodes[0] {
      assert c in FlattenBelow(p) by { ChildInFlattenBelow(p, c); }
    } else if p in FlattenBelow(nodes[0]) {
      ChildInSubtree(nodes[0], p, c);
    } else {
      ChildIsDescendant(nodes[1..], p, c);
    }
  }

  lemma ChildInFlattenBelow(p: Node, c: Node)
    requires c in Kids(p)
    ensures c in FlattenBelow(p)
  {
    var ks := Kids(p);
    var i :| 0 <= i < |ks| && ks[i] == c;
    FlattenContainsRoots(ks, i);
  }

  lemma {:induction false} FlattenContainsRoots(nodes: seq<Node>, i: nat)
    requires i < |nodes|
    ensures nodes[i] in Flatten(nodes)
  {
    if i > 0 {
      FlattenContainsRoots(nodes[1..], i - 1);
    }
  }

  /** A child of a node below `r` is itself below `r`. */
  lemma {:induction false} ChildInSubtree(r: Node, p: Node, c: Node)
    requires p in FlattenBelow(r) && c in Kids(p)
    ensures c in FlattenBelow(r)
    decreases r
  {
    match r.children
    case Present(ks) => ChildInForest(ks, p, c);
  }

  lemma {:induction false} ChildInForest(nodes: seq<Node>, p: Node, c: Node)
    requires p in Flatten(nodes) && c in Kids(p)
    ensures c in Flatten(nodes)
    decreases nodes
  {
    if p == nodes[0] {
      ChildInFlattenBelow(p, c);
    } else if p in FlattenBelow(nodes[0]) {
      ChildInSubtree(nodes[0], p, c);
    } else {
      ChildInForest(nodes[1..], p, c);
    }
  }

  /** A root whose id no descendant shares has no parent: the back button
      falls back to the home screen from it. */
  lemma RootHasNoParent(nodes: seq<Node>, root: Node)
    requires root in nodes
    requires forall d :: d in Descendants(nodes) ==> d.id != root.id
    ensures FindParentNode(nodes, root.id) == None
  {
    FindParentNodeComplete(nodes, root.id);
    forall n | n in Flatten(nodes) ensures !HasChildWithId(n, root.id) {
      if HasChildWithId(n, root.id) {
        var c :| c in Kids(n) && c.id == root.id;
        ChildIsDescendant(nodes, n, c);
      }
    }
  }

  /** The forest `[A[B]]`: the parent of B is A, and A has none. */
  lemma TwoLevelScenario()
    ensures var b := Node("B", "B", "A", NoVideo, None, Absent);
            var a := Node("A", "A", "", NoVideo, None, Present([b]));
            FindParentNode([a], "B") == Some(a) && FindParentNode([a], "A") == None
            && FindNodeById([a], "B") == Some(b)
  {
    var b := Node("B", "B", "A", NoVideo, None, Absent);
    var a := Node("A", "A", "", NoVideo, None, Present([b]));
    assert b in Kids(a);
    assert HasChildWithId(a, "B");
    assert FindParentNode([b], "A") == None by {
      assert !HasChildWithId(b, "A");
    }
    assert !HasChildWithId(a, "A");
    assert FindBelow(a, "B") == Some(b);
  }
}

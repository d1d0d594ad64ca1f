/** Which tree a heap of nodes represents. */
module DomHolds {
  import opened Words
  import opened EvioTree
  import opened Dom

  /** The nodes in `S`, starting from `n`, spell out the tree `t`. */
  ghost predicate Holds(n: DomNode, t: Node, S: set<DomNode>)
    reads S
    decreases t, 1
  {
    && n in S && n.tag == t.tag && n.num == t.num
    && match t
       case Leaf(_, _, p) => n.body == LeafBody(p)
       case Container(_, _, ct, kids) => n.body == ContainerBody(ct) && HoldsKids(n, n.childList, kids, S)
  }

  ghost predicate HoldsKids(parent: DomNode, nodes: seq<DomNode>, kids: seq<Node>, S: set<DomNode>)
    reads S
    decreases kids, 0
  {
    if kids == [] then nodes == []
    else
      && nodes != [] && nodes[0] in S && nodes[0].parent == parent && Holds(nodes[0], kids[0], S)
      && HoldsKids(parent, nodes[1..], kids[1..], S)
  }

  /** The content type that dictates a node's header: its parent's, or BANK at the top. */
  function BankTypeOf(n: DomNode): ContainerType
    requires n.parent != null ==> n.parent.body.ContainerBody?
    reads n
  {
    if n.parent == null then Bank else n.parent.body.ctype
  }

  lemma {:induction false} HoldsInMore(n: DomNode, t: Node, S: set<DomNode>, S': set<DomNode>)
    requires Holds(n, t, S) && S <= S'
    ensures Holds(n, t, S')
    decreases t, 1
  {
    match t
    case Leaf(_, _, _) =>
    case Container(_, _, _, kids) => HoldsKidsInMore(n, n.childList, kids, S, S');
  }

  lemma {:induction false} HoldsKidsInMore(parent: DomNode, nodes: seq<DomNode>, kids: seq<Node>, S: set<DomNode>,
      S': set<DomNode>)
    requires HoldsKids(parent, nodes, kids, S) && S <= S'
    ensures HoldsKids(parent, nodes, kids, S')
    decreases kids, 0
  {
    if kids != [] {
      HoldsInMore(nodes[0], kids[0], S, S');
      HoldsKidsInMore(parent, nodes[1..], kids[1..], S, S');
    }
  }

  /** A kid appended to the node list appends its tree to the list of trees. */
  lemma {:induction false} HoldsKidsAppend(parent: DomNode, nodes: seq<DomNode>, kids: seq<Node>, n: DomNode,
      t: Node, S: set<DomNode>)
    requires HoldsKids(parent, nodes, kids, S) && n in S && n.parent == parent && Holds(n, t, S)
    ensures HoldsKids(parent, nodes + [n], kids + [t], S)
    decreases kids
  {
    if kids != [] {
      HoldsKidsAppend(parent, nodes[1..], kids[1..], n, t, S);
      assert (nodes + [n])[1..] == nodes[1..] + [n] && (kids + [t])[1..] == kids[1..] + [t];
    } else {
      assert (nodes + [n])[1..] == [] && (kids + [t])[1..] == [];
    }
  }

  /** What the nodes hold depends on nothing but their lists and parent pointers. */
  twostate lemma {:induction false} HoldsKept(new n: DomNode, new t: Node, S: set<DomNode>)
    requires n in S && old(Holds(n, t, S))
    requires forall x <- S :: x.childList == old(x.childList) && x.parent == old(x.parent)
    ensures Holds(n, t, S)
    decreases t, 1
  {
    match t
    case Leaf(_, _, _) =>
    case Container(_, _, _, kids) => HoldsKidsKept(n, n.childList, kids, S);
  }

  twostate lemma {:induction false} HoldsKidsKept(new parent: DomNode, new nodes: seq<DomNode>, new kids: seq<Node>,
      S: set<DomNode>)
    requires parent in S && old(allocated(nodes)) && old(HoldsKids(parent, nodes, kids, S))
    requires forall x <- S :: x.childList == old(x.childList) && x.parent == old(x.parent)
    ensures HoldsKids(parent, nodes, kids, S)
    decreases kids, 0
  {
    if kids != [] {
      HoldsKept(nodes[0], kids[0], S);
      HoldsKidsKept(parent, nodes[1..], kids[1..], S);
    }
  }

  // ----- which trees the nodes hold after an edit -----

  /** The nodes of the subtree of `x`. */
  ghost function Subtree(x: DomNode, S: set<DomNode>): set<DomNode>
    reads S
  {
    set y | y in S && InSubtree(y, x, S)
  }

  /** In an acyclic heap nothing hangs under its own subtree. */
  ghost predicate Grounded(x: DomNode, S: set<DomNode>)
    reads S, x
  {
    x.parent != null ==> x.parent !in Subtree(x, S)
  }

  lemma AcyclicGrounded(x: DomNode, S: set<DomNode>)
    requires x in S && Acyclic(S)
    ensures Grounded(x, S)
  {
    if x.parent != null && x.parent in Subtree(x, S) {
      var j: nat :| Below(x.parent, x, j, S);
      var k: nat :| Ends(x, k, S);
      CycleNeverEnds(x, j, k, S);
    }
  }

  /** At most the children of `p` and the parent of `n` have changed. */
  twostate predicate Edited(new p: DomNode?, new n: DomNode, S: set<DomNode>)
    reads S
    requires old(allocated(p)) && old(allocated(n))
  {
    && (forall y <- S :: y != p ==> y.childList == old(y.childList))
    && (forall y <- S :: y != n ==> y.parent == old(y.parent))
  }

  /** `D` holds whole subtrees, and `n` is no child there. */
  ghost predicate Closed(D: set<DomNode>, n: DomNode, S: set<DomNode>)
    reads S
  {
    D <= S && forall y <- D :: forall c <- y.childList :: c in D && c != n
  }

  /** Where neither the edited list nor the moved node is, trees are as they were. */
  twostate lemma {:induction false} HoldsElsewhere(new x: DomNode, new t: Node, new D: set<DomNode>, new p: DomNode?,
      new n: DomNode, S: set<DomNode>)
    requires old(allocated(D)) && old(allocated(p)) && old(allocated(n)) && x in D && p !in D && old(Closed(D, n, S))
    requires old(Holds(x, t, S)) && Edited(p, n, S)
    ensures Holds(x, t, S)
    decreases t, 1
  {
    match t
    case Leaf(_, _, _) =>
    case Container(_, _, _, kids) => HoldsKidsElsewhere(x, x.childList, kids, D, p, n, S);
  }

  twostate lemma {:induction false} HoldsKidsElsewhere(new x: DomNode, new nodes: seq<DomNode>, new kids: seq<Node>,
                                                       new D: set<DomNode>, new p: DomNode?, new n: DomNode,
                                                       S: set<DomNode>)
    requires old(allocated(D)) && old(allocated(p)) && old(allocated(n)) && p !in D && old(Closed(D, n, S))
    requires x in S && old(allocated(nodes)) && forall c <- nodes :: c in D && c != n
    requires old(HoldsKids(x, nodes, kids, S)) && Edited(p, n, S)
    ensures HoldsKids(x, nodes, kids, S)
    decreases kids, 0
  {
    if kids != [] {
      HoldsElsewhere(nodes[0], kids[0], D, p, n, S);
      HoldsKidsElsewhere(x, nodes[1..], kids[1..], D, p, n, S);
    }
  }

  /** A subtree is closed, and so it is without its top, as long as `n` hangs elsewhere. */
  twostate lemma OldSubtrees(new x: DomNode, new n: DomNode, S: set<DomNode>, new T: set<DomTree>)
    requires x in S && old(allocated(n)) && old(allocated(T)) && old(Linked(S, T))
    ensures var D := old(Subtree(x, S));
            && x in D && (old(n.parent) == null || old(n.parent) !in D ==> old(Closed(D, n, S)))
            && (old(Grounded(x, S)) && (n == x || old(n.parent) == null || old(n.parent) == x) ==>
                  old(Closed(D - {x}, n, S)) && forall c <- old(x.childList) :: c in D - {x})
  {
    var D := old(Subtree(x, S));
    assert old(Below(x, x, 0, S));
    forall y <- D, c <- old(y.childList) ensures c in D && old(c.parent) == y {
      assert old(NodeLinked(y, S));
      var k: nat :| old(Below(y, x, k, S));
      assert old(Below(c, x, k + 1, S));
    }
  }

  /** A node that was cut holds the tree it held. */
  twostate lemma CutKeeps(new n: DomNode, new t: Node, S: set<DomNode>, new T: set<DomTree>)
    requires n in S && old(allocated(T)) && old(Linked(S, T)) && old(Grounded(n, S)) && Released(n, S, T)
    requires old(Holds(n, t, S))
    ensures Holds(n, t, S)
  {
    OldSubtrees(n, n, S, T);
    HoldsElsewhere(n, t, old(Subtree(n, S)), old(n.parent), n, S);
  }

  /** So do all nodes it was not below. */
  twostate lemma CutSpares(new n: DomNode, new x: DomNode, new t: Node, S: set<DomNode>, new T: set<DomTree>)
    requires n in S && x in S && old(allocated(T)) && old(Linked(S, T)) && Released(n, S, T)
    requires old(n.parent) == null || old(n.parent) !in old(Subtree(x, S))
    requires old(Holds(x, t, S))
    ensures Holds(x, t, S)
  {
    OldSubtrees(x, n, S, T);
    HoldsElsewhere(x, t, old(Subtree(x, S)), old(n.parent), n, S);
  }

  /** The trees of a list of nodes, without that of `n`. */
  function Without(nodes: seq<DomNode>, kids: seq<Node>, n: DomNode): seq<Node> {
    if nodes == [] || kids == [] then []
    else if nodes[0] == n then Without(nodes[1..], kids[1..], n)
    else [kids[0]] + Without(nodes[1..], kids[1..], n)
  }

  twostate lemma {:induction false} HoldsKidsWithout(new x: DomNode, new nodes: seq<DomNode>, new kids: seq<Node>,
                                                     new D: set<DomNode>, new n: DomNode, S: set<DomNode>)
    requires old(allocated(D)) && old(allocated(n)) && x in S && x !in D && old(Closed(D, n, S))
    requires old(allocated(nodes)) && forall c <- nodes :: c != n ==> c in D
    requires old(HoldsKids(x, nodes, kids, S)) && Edited(x, n, S)
    ensures HoldsKids(x, Remove(nodes, n), Without(nodes, kids, n), S)
    decreases kids, 0
  {
    if kids != [] {
      if nodes[0] != n {
        HoldsElsewhere(nodes[0], kids[0], D, x, n, S);
        assert Remove(nodes, n)[1..] == Remove(nodes[1..], n);
        assert Without(nodes, kids, n)[1..] == Without(nodes[1..], kids[1..], n);
      }
      HoldsKidsWithout(x, nodes[1..], kids[1..], D, n, S);
    }
  }

  /** The tree of the node it was cut from has lost exactly its own. */
  twostate lemma CutDrops(new n: DomNode, new p: DomNode, new tp: Node, S: set<DomNode>, new T: set<DomTree>)
    requires n in S && p in S && old(allocated(T)) && old(Linked(S, T)) && old(Grounded(p, S)) && Released(n, S, T)
    requires old(n.parent) == p && tp.Container? && old(Holds(p, tp, S))
    ensures Holds(p, tp.(kids := Without(old(p.childList), tp.kids, n)), S)
  {
    OldSubtrees(p, n, S, T);
    HoldsKidsWithout(p, old(p.childList), tp.kids, old(Subtree(p, S)) - {p}, n, S);
  }

  /** A free node hung under a container holds the tree it held, and the container's tree has it as
      its last child. */
  twostate lemma AttachAdds(new n: DomNode, new t: Node, new p: DomNode, new tp: Node, S: set<DomNode>,
      new T: set<DomTree>)
    requires n in S && p in S && old(allocated(T)) && old(Linked(S, T)) && old(Grounded(p, S)) && old(n.parent) == null
    requires !old(InSubtree(p, n, S)) && old(Holds(n, t, S)) && tp.Container? && old(Holds(p, tp, S))
    requires Edited(p, n, S) && n.parent == p && p.childList == old(p.childList) + [n]
    ensures Holds(n, t, S) && Holds(p, tp.(kids := tp.kids + [t]), S)
  {
    OldSubtrees(n, n, S, T);
    OldSubtrees(p, n, S, T);
    HoldsElsewhere(n, t, old(Subtree(n, S)), p, n, S);
    HoldsKidsElsewhere(p, old(p.childList), tp.kids, old(Subtree(p, S)) - {p}, p, n, S);
    HoldsKidsAppend(p, old(p.childList), tp.kids, n, t, S);
  }
}

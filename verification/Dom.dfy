/** The mutable tree of nodes: the objects, and the operations that rearrange them. */
module Dom {
  import opened Words
  import opened EvioTree

  datatype Body = LeafBody(payload: Payload) | ContainerBody(ctype: ContainerType) {
    function Code(): u8 {
      match this
      case LeafBody(p) => p.Code()
      case ContainerBody(ct) => ct.Code()
    }

    predicate IsContainer() { ContainerBody? && ctype.IsContainer() }
  }

  datatype EditError = NotAContainer

  // ----- the shape of the heap -----

  /** `list::remove` */
  function Remove(s: seq<DomNode>, x: DomNode): (r: seq<DomNode>)
    ensures x !in r && (forall y <- r :: y in s) && (forall y <- s :: y != x ==> y in r)
    ensures NoDuplicates(s) ==> NoDuplicates(r)
    ensures x !in s ==> r == s
  {
    if s == [] then []
    else if s[0] == x then Remove(s[1..], x)
    else
      var r := Remove(s[1..], x);
      assert forall j :: 0 <= j < |r| ==> r[j] in s[1..];
      [s[0]] + r
  }

  /** A node lists its children once each, and is the parent of exactly those; only containers
      have any. */
  ghost predicate NodeLinked(n: DomNode, S: set<DomNode>)
    reads n, S
  {
    && NoDuplicates(n.childList)
    && (forall c <- n.childList :: c in S && c.parent == n)
    && (n.parent != null ==> n.parent in S && n in n.parent.childList && n.parent.body.IsContainer())
  }

  /** A node has a parent or is the root of a tree, not both; roots and trees point at each other. */
  ghost predicate RootLinked(n: DomNode, T: set<DomTree>)
    reads n, T
  {
    n.parentTree != null ==> n.parent == null && n.parentTree in T && n.parentTree.root == n
  }

  ghost predicate TreeLinked(t: DomTree, S: set<DomNode>)
    reads t, S
  {
    t.root != null ==> t.root in S && t.root.parentTree == t
  }

  ghost predicate Linked(S: set<DomNode>, T: set<DomTree>)
    reads S, T
  {
    && (forall n <- S :: NodeLinked(n, S) && RootLinked(n, T))
    && (forall t <- T :: TreeLinked(t, S))
  }

  /** From `n`, at most `k` steps to a parent end at a node without one. */
  ghost predicate Ends(n: DomNode, k: nat, S: set<DomNode>)
    reads S
    decreases k
  {
    n in S && (n.parent == null || (k > 0 && Ends(n.parent, k - 1, S)))
  }

  ghost predicate Acyclic(S: set<DomNode>)
    reads S
  {
    forall n <- S :: exists k: nat :: Ends(n, k, S)
  }

  /** `x` is `a`, or reaches it in at most `k` steps to a parent. */
  ghost predicate Below(x: DomNode, a: DomNode, k: nat, S: set<DomNode>)
    reads S
    decreases k
  {
    x == a || (k > 0 && x in S && x.parent != null && Below(x.parent, a, k - 1, S))
  }

  /** `x` is `a` or one of its descendants. */
  ghost predicate InSubtree(x: DomNode, a: DomNode, S: set<DomNode>)
    reads S
  {
    exists k: nat :: Below(x, a, k, S)
  }

  // ----- cutting and attaching keep parents acyclic, attaching below oneself does not -----

  twostate lemma {:induction false} EndsAfterCut(new x: DomNode, new k: nat, new n: DomNode, S: set<DomNode>)
    requires x in S && old(Ends(x, k, S)) && n.parent == null
    requires forall y <- S :: y != n ==> y.parent == old(y.parent)
    ensures Ends(x, k, S)
    decreases k
  {
    if x != n && x.parent != null {
      EndsAfterCut(x.parent, k - 1, n, S);
    }
  }

  twostate lemma {:induction false} EndsOutside(new x: DomNode, new k: nat, new n: DomNode, S: set<DomNode>)
    requires x in S && n in S && old(Ends(x, k, S)) && !old(InSubtree(x, n, S))
    requires forall y <- S :: y != n ==> y.parent == old(y.parent)
    ensures Ends(x, k, S)
    decreases k
  {
    assert old(Below(x, n, 0, S)) <==> x == n;
    if x.parent != null {
      forall j: nat ensures !old(Below(x.parent, n, j, S)) {
        assert old(Below(x, n, j + 1, S)) <==> x == n || old(Below(x.parent, n, j, S));
      }
      EndsOutside(x.parent, k - 1, n, S);
    }
  }

  twostate lemma {:induction false} EndsAfterAttach(new x: DomNode, new k: nat, new n: DomNode, new p: DomNode,
      new j: nat, S: set<DomNode>)
    requires x in S && old(Ends(x, k, S)) && n in S && n.parent == p && Ends(p, j, S)
    requires forall y <- S :: y != n ==> y.parent == old(y.parent)
    ensures Ends(x, k + j + 1, S)
    decreases k
  {
    EndsMore(p, j, k + j, S);
    if x != n && x.parent != null {
      EndsAfterAttach(x.parent, k - 1, n, p, j, S);
    }
  }

  lemma {:induction false} EndsMore(x: DomNode, k: nat, k': nat, S: set<DomNode>)
    requires Ends(x, k, S) && k <= k'
    ensures Ends(x, k', S)
    decreases k
  {
    if x.parent != null {
      EndsMore(x.parent, k - 1, k' - 1, S);
    }
  }

  /** Below `n` nothing ends that does not pass `n` on the way. */
  lemma {:induction false} BelowPasses(x: DomNode, n: DomNode, j: nat, k: nat, S: set<DomNode>)
    requires Below(x, n, j, S) && Ends(x, k, S) && n.parent != null
    ensures exists k': nat :: k' <= k && Ends(n, k', S)
    decreases j
  {
    if x != n {
      BelowPasses(x.parent, n, j - 1, k - 1, S);
    }
  }

  lemma {:induction false} CycleNeverEnds(n: DomNode, j: nat, k: nat, S: set<DomNode>)
    requires n in S && n.parent != null && Below(n.parent, n, j, S)
    ensures !Ends(n, k, S)
    decreases k
  {
    if Ends(n, k, S) {
      BelowPasses(n.parent, n, j, k - 1, S);
      var k' :| 0 <= k' <= k - 1 && Ends(n, k', S);
      CycleNeverEnds(n, j, k', S);
    }
  }

  twostate lemma {:induction false} BelowKept(new x: DomNode, new n: DomNode, new k: nat, S: set<DomNode>)
    requires old(allocated(x)) && old(allocated(n))
    requires forall y <- S :: y != n ==> y.parent == old(y.parent)
    ensures Below(x, n, k, S) <==> old(Below(x, n, k, S))
    decreases k
  {
    if x != n && k > 0 && x in S && x.parent != null {
      BelowKept(x.parent, n, k - 1, S);
    }
  }

  twostate lemma AcyclicAfterCut(new n: DomNode, S: set<DomNode>)
    requires old(Acyclic(S)) && n.parent == null
    requires forall y <- S :: y != n ==> y.parent == old(y.parent)
    ensures Acyclic(S)
  {
    forall x <- S ensures exists k: nat :: Ends(x, k, S) {
      var k :| old(Ends(x, k, S));
      EndsAfterCut(x, k, n, S);
    }
  }

  /** Hanging a free node under `p` leaves parents acyclic exactly when `p` is not in its subtree. */
  twostate lemma AcyclicAfterAttach(new n: DomNode, new p: DomNode, S: set<DomNode>)
    requires old(Acyclic(S)) && n in S && p in S && n.parent == p
    requires forall y <- S :: y != n ==> y.parent == old(y.parent)
    ensures Acyclic(S) <==> !old(InSubtree(p, n, S))
  {
    if old(InSubtree(p, n, S)) {
      var j :| old(Below(p, n, j, S));
      BelowKept(p, n, j, S);
      forall k: nat ensures !Ends(n, k, S) {
        CycleNeverEnds(n, j, k, S);
      }
    } else {
      var j :| old(Ends(p, j, S));
      EndsOutside(p, j, n, S);
      forall x <- S ensures exists k: nat :: Ends(x, k, S) {
        var k :| old(Ends(x, k, S));
        EndsAfterAttach(x, k, n, p, j, S);
      }
    }
  }

  /** Whether `p` lies below `n` does not depend on what `n` hangs under. */
  twostate lemma InSubtreeKept(new p: DomNode, new n: DomNode, S: set<DomNode>)
    requires old(allocated(p)) && old(allocated(n))
    requires forall y <- S :: y != n ==> y.parent == old(y.parent)
    ensures InSubtree(p, n, S) <==> old(InSubtree(p, n, S))
  {
    forall k: nat ensures Below(p, n, k, S) <==> old(Below(p, n, k, S)) {
      BelowKept(p, n, k, S);
    }
  }

  // ----- what the single steps do to the links -----

  /** `n` is free, and only its old parent and its old tree have let go of it. */
  twostate predicate Released(new n: DomNode, S: set<DomNode>, new T: set<DomTree>)
    reads S, T
    requires n in S && old(allocated(T))
  {
    && n.parent == null && n.parentTree == null
    && (forall y <- S :: y.childList == if y == old(n.parent) then Remove(old(y.childList), n) else old(y.childList))
    && (forall y <- S :: y != n ==> y.parent == old(y.parent) && y.parentTree == old(y.parentTree))
    && (forall t <- T :: t.root == if old(t.root) == n then null else old(t.root))
  }

  twostate lemma TreesOf(new n: DomNode, S: set<DomNode>, new T: set<DomTree>)
    requires n in S && old(allocated(T)) && old(Linked(S, T))
    ensures forall t <- T :: old(t.root) == n ==> old(n.parentTree) == t
  {
    forall t <- T | old(t.root) == n ensures old(n.parentTree) == t {
      assert old(TreeLinked(t, S));
    }
  }

  twostate lemma NodeLinkedAfterRelease(new x: DomNode, new n: DomNode, S: set<DomNode>, new T: set<DomTree>)
    requires x in S && n in S && old(allocated(T)) && old(Linked(S, T)) && Released(n, S, T)
    ensures NodeLinked(x, S) && RootLinked(x, T)
    ensures x.childList == old(Remove(x.childList, n))
  {
    assert old(NodeLinked(x, S) && RootLinked(x, T) && NodeLinked(n, S));
    if x.parent != null {
      assert old(NodeLinked(x.parent, S));
    }
  }

  twostate lemma LinkedAfterRelease(new n: DomNode, S: set<DomNode>, new T: set<DomTree>)
    requires n in S && old(allocated(T)) && old(Linked(S, T)) && Released(n, S, T)
    ensures Linked(S, T)
    ensures forall x <- S :: x.childList == old(Remove(x.childList, n))
  {
    forall x <- S ensures NodeLinked(x, S) && RootLinked(x, T) && x.childList == old(Remove(x.childList, n)) {
      NodeLinkedAfterRelease(x, n, S, T);
    }
    forall t <- T ensures TreeLinked(t, S) {
      assert old(TreeLinked(t, S));
      if t.root != null {
        assert old(RootLinked(t.root, T));
      }
    }
  }

  /** A free node made the root of an empty tree. */
  twostate lemma LinkedAfterRoot(new n: DomNode, new tree: DomTree, S: set<DomNode>, new T: set<DomTree>)
    requires n in S && tree in T && old(allocated(T)) && old(Linked(S, T))
            && old(tree.root == null && n.parent == null && n.parentTree == null)
    requires tree.root == n && n.parentTree == tree && n.parent == null
    requires forall y <- S :: y.childList == old(y.childList)
    requires forall y <- S :: y != n ==> y.parent == old(y.parent) && y.parentTree == old(y.parentTree)
    requires forall t <- T :: t != tree ==> t.root == old(t.root)
    ensures Linked(S, T)
  {
    forall x <- S ensures NodeLinked(x, S) && RootLinked(x, T) {
      assert old(NodeLinked(x, S) && RootLinked(x, T));
    }
    forall t <- T ensures TreeLinked(t, S) {
      assert old(TreeLinked(t, S));
    }
  }

  // ----- the objects -----

  class DomTree {
    var root: DomNode?

    constructor ()
      ensures root == null
    {
      root := null;
    }

    /** Makes `node` the root of an empty tree, or appends it to the root's children. */
    method AddBank(node: DomNode, ghost S: set<DomNode>, ghost T: set<DomTree>) returns (error: Option<EditError>)
      requires this in T && node in S && Linked(S, T) && Acyclic(S)
      modifies S, T
      ensures Linked(S, T) && Acyclic(S)
      ensures error.Some? <==> old(root) != null && old(root) != node && !old(root).body.IsContainer()
      ensures error == None ==>
                if old(root) == null || old(root) == node then
                  root == node && node.parentTree == this && node.parent == null
                else
                  && root == old(root) && node.parent == root
                  && root.childList == Remove(old(root.childList), node) + [node]
      ensures error.Some? ==> node.parent == null && node.parentTree == null && root == old(root)
      ensures forall n <- S :: n != node && n != root ==>
              n.childList == old(Remove(n.childList, node)) && n.parent == old(n.parent)
    {
      assert TreeLinked(this, S);
      hide Acyclic, InSubtree, Linked;
      node.Cut(S, T);
      label cut:
      if root == null {
        root := node;
        root.parentTree := this;
        LinkedAfterRoot@cut(node, this, S, T);
        AcyclicAfterCut@cut(node, S);
        error := None;
      } else {
        if !root.body.IsContainer() {
          return Some(NotAContainer);
        }
        RootIn(this, S, T);
        RootNotBelow(root, node, S);
        node.AttachTo(root, S, T);
        error := None;
      }
    }
  }

  lemma RootIn(t: DomTree, S: set<DomNode>, T: set<DomTree>)
    requires t in T && Linked(S, T) && t.root != null
    ensures t.root in S && t.root.parent == null
  {
    assert TreeLinked(t, S) && RootLinked(t.root, T);
  }

  lemma RootNotBelow(r: DomNode, n: DomNode, S: set<DomNode>)
    requires r.parent == null && r != n
    ensures !InSubtree(r, n, S)
  {
  }

  class DomNode {
    const tag: u16
    const num: u8
    const body: Body
    var parent: DomNode?
    var parentTree: DomTree?
    var childList: seq<DomNode>

    constructor (tag: u16, num: u8, body: Body)
      ensures this.tag == tag && this.num == num && this.body == body
      ensures parent == null && parentTree == null && childList == []
    {
      this.tag, this.num, this.body := tag, num, body;
      parent, parentTree, childList := null, null, [];
    }

    /** Takes the node out of its parent or, if it is a root, out of its tree. */
    method Cut(ghost S: set<DomNode>, ghost T: set<DomTree>)
      requires this in S && Linked(S, T)
      modifies S, T
      ensures Linked(S, T) && (old(Acyclic(S)) ==> Acyclic(S))
      ensures parent == null && parentTree == null
      ensures forall n <- S :: n.childList == old(Remove(n.childList, this))
      ensures forall n <- S :: n != this ==> n.parent == old(n.parent) && n.parentTree == old(n.parentTree)
      ensures forall t <- T :: t.root == if old(t.root) == this then null else old(t.root)
    {
      assert NodeLinked(this, S) && RootLinked(this, T);
      hide Acyclic, Linked, NodeLinked;
      if parent != null {
        parent.childList := Remove(parent.childList, this);
        parent := null;
      } else if parentTree != null {
        parentTree.root := null;
        parentTree := null;
      }
      TreesOf(this, S, T);
      LinkedAfterRelease(this, S, T);
      if old(Acyclic(S)) {
        AcyclicAfterCut(this, S);
      }
    }

    /** Hangs a free node under container `p`. */
    method AttachTo(p: DomNode, ghost S: set<DomNode>, ghost T: set<DomTree>)
      requires this in S && p in S && p.body.IsContainer() && Linked(S, T) && Acyclic(S)
      requires parent == null && parentTree == null
      modifies this`parent, p`childList
      ensures Linked(S, T)
      ensures parent == p && p.childList == old(p.childList) + [this]
      ensures Acyclic(S) <==> !old(InSubtree(p, this, S))
    {
      hide Acyclic, InSubtree;
      p.childList := p.childList + [this];
      parent := p;
      AcyclicAfterAttach(this, p, S);
    }

    /** Changes the node's parent.  The node is cut before the new parent is looked at. */
    method Move(newParent: DomNode, ghost S: set<DomNode>, ghost T: set<DomTree>) returns (error: Option<EditError>)
      requires this in S && newParent in S && Linked(S, T) && Acyclic(S)
      modifies S, T
      ensures Linked(S, T)
      ensures error.Some? <==> !newParent.body.IsContainer()
      ensures Acyclic(S) <==> error.Some? || !old(InSubtree(newParent, this, S))
      ensures parentTree == null && parent == if error.Some? then null else newParent
      ensures error == None ==> newParent.childList == old(Remove(newParent.childList, this)) + [this]
      ensures forall n <- S :: n != newParent || error.Some? ==> n.childList == old(Remove(n.childList, this))
      ensures forall n <- S :: n != this ==> n.parent == old(n.parent) && n.parentTree == old(n.parentTree)
      ensures forall t <- T :: t.root == if old(t.root) == this then null else old(t.root)
    {
      hide Acyclic, InSubtree, Linked;
      Cut(S, T);
      if !newParent.body.IsContainer() {
        return Some(NotAContainer);
      }
      InSubtreeKept(newParent, this, S);
      AttachTo(newParent, S, T);
      error := None;
    }

    /** Adds `node` to this container. */
    method AddNode(node: DomNode?, ghost S: set<DomNode>, ghost T: set<DomTree>) returns (error: Option<EditError>)
      requires this in S && (node != null ==> node in S) && Linked(S, T) && Acyclic(S)
      modifies S, T
      ensures Linked(S, T)
      ensures error.Some? <==> node != null && !body.IsContainer()
      ensures node != null && error == None ==>
                && node.parent == this && node.parentTree == null
                && childList == old(Remove(childList, node)) + [node]
                && (Acyclic(S) <==> !old(InSubtree(this, node, S)))
                && (forall n <- S :: n != this ==> n.childList == old(Remove(n.childList, node)))
                && (forall n <- S :: n != node ==> n.parent == old(n.parent) && n.parentTree == old(n.parentTree))
      ensures node == null || error.Some? ==>
              Acyclic(S) && forall n <- S :: n.childList == old(n.childList) && n.parent == old(n.parent)
    {
      hide Acyclic, InSubtree, Linked;
      if node == null {
        return None;
      }
      if !body.IsContainer() {
        return Some(NotAContainer);
      }
      error := node.Move(this, S, T);
    }
  }
}

/** The stream parser driving the tree-building handlers, on the node heap. */
module DomParser {
  import opened Words
  import opened EvioTree
  import opened EvioParse
  import opened Dom
  import opened DomHolds

  /** The nodes in `S` hang together below `n`, each `d` levels down: lists and parent pointers match,
      only containers have children, and `n` alone may hang under something else. */
  ghost predicate Grown(n: DomNode, S: set<DomNode>, d: map<DomNode, nat>)
    reads S
  {
    && n in S && d.Keys == S && d[n] == 0
    && (forall x <- S :: Lists(x, S))
    && (forall x <- S :: x != n ==> UnderParent(x, S, d))
  }

  ghost predicate Lists(x: DomNode, S: set<DomNode>)
    reads x, S
  {
    NoDuplicates(x.childList) && forall c <- x.childList :: c in S && c.parent == x
  }

  ghost predicate UnderParent(x: DomNode, S: set<DomNode>, d: map<DomNode, nat>)
    requires x in S && d.Keys == S
    reads S
  {
    && x.parentTree == null && x.parent != null && x.parent in S && x in x.parent.childList
       && x.parent.body.IsContainer()
    && d[x] == d[x.parent] + 1
  }

  /** The levels of `T` counted from one level higher up, with those of `d`. */
  ghost function Deeper(d: map<DomNode, nat>, e: map<DomNode, nat>): map<DomNode, nat> {
    d + map x | x in e :: e[x] + 1
  }

  lemma {:induction false} GrownEnds(n: DomNode, S: set<DomNode>, d: map<DomNode, nat>, x: DomNode)
    requires Grown(n, S, d) && n.parent == null && x in S
    ensures Ends(x, d[x], S)
    decreases d[x]
  {
    if x != n {
      assert UnderParent(x, S, d);
      GrownEnds(n, S, d, x.parent);
    }
  }

  /** What has grown from a root is a linked, acyclic tree. */
  lemma GrownLinked(tree: DomTree, n: DomNode, S: set<DomNode>, d: map<DomNode, nat>)
    requires Grown(n, S, d) && n.parent == null && n.parentTree == tree && tree.root == n
    ensures Linked(S, {tree}) && Acyclic(S)
  {
    forall x <- S ensures NodeLinked(x, S) && RootLinked(x, {tree}) {
      assert x != n ==> UnderParent(x, S, d);
    }
    forall x <- S ensures exists k: nat :: Ends(x, k, S) {
      GrownEnds(n, S, d, x);
    }
  }

  /** `evioDOMTree::leafNodeHandler` and `containerNodeHandler`: a new node, hung under `parent`. */
  method NewNode(tag: u16, num: u8, body: Body, parent: DomNode?) returns (n: DomNode)
    modifies if parent == null then {} else {parent}
    ensures fresh(n) && n.tag == tag && n.num == num && n.body == body
    ensures n.childList == [] && n.parent == parent && n.parentTree == null
    ensures parent != null ==> parent.childList == old(parent.childList) + [n]
    ensures parent != null ==> parent.parent == old(parent.parent) && parent.parentTree == old(parent.parentTree)
  {
    n := new DomNode(tag, num, body);
    if parent != null {
      parent.childList := parent.childList + [n];
      n.parent := parent;
    }
  }

  /** `evioStreamParser::parseBank`: parses the bank at `off` into new nodes under `parent`. */
  method ParseBank(w: seq<u32>, off: nat, bt: ContainerType, parent: DomNode?)
    returns (r: Result<DomNode, Fault>, ghost S: set<DomNode>, ghost d: map<DomNode, nat>)
    requires off <= |w|
    modifies if parent == null then {} else {parent}
    ensures ParseAt(w, off, bt).Err? ==> r == Err(ParseAt(w, off, bt).error)
    ensures ParseAt(w, off, bt).Ok? ==>
              r.Ok? && fresh(S) && Holds(r.value, ParseAt(w, off, bt).value, S) && Grown(r.value, S, d)
              && r.value.parent == parent && r.value.parentTree == null
              && (parent != null ==> parent.childList == old(parent.childList) + [r.value])
    ensures parent != null ==> parent.parent == old(parent.parent) && parent.parentTree == old(parent.parentTree)
    decreases |w| - off, 0
  {
    hide HeadAt, ReadLeaf, ContainerOf, ParseKids, Grown;
    S, d := {}, map[];
    var head := HeadAt(w, off, bt);
    if head.Err? {
      return Err(head.error), S, d;
    }
    var h := head.value;
    var base := off + bt.HeaderLen();
    if off + h.len > |w| {
      return Err(Overrun), S, d;
    }
    match ContainerOf(h.code)
    case None =>
      if h.len < bt.HeaderLen() {
        return Err(BadLength), S, d;
      }
      var p := ReadLeaf(w, base, h.len - bt.HeaderLen(), h.code, h.padding);
      if p.Err? {
        return Err(p.error), S, d;
      }
      var leaf := NewNode(h.tag, h.num, LeafBody(p.value), parent);
      GrownAlone(leaf);
      return Ok(leaf), {leaf}, map[leaf := 0];
    case Some(ct) =>
      var node := NewNode(h.tag, h.num, ContainerBody(ct), parent);
      ContainerFits(w, off, bt);
      var fault;
      fault, S, d := ParseBanks(w, base, off + h.len, ct, node);
      if fault.Some? {
        return Err(fault.value), S, d;
      }
      S := S + {node};
      r := Ok(node);
  }

  /** The loop over the contained banks; `node` is the container just made. */
  method ParseBanks(w: seq<u32>, base: nat, end: nat, ct: ContainerType, node: DomNode)
    returns (fault: Option<Fault>, ghost S: set<DomNode>, ghost d: map<DomNode, nat>)
    requires base <= |w| && end <= |w| && node.childList == [] && node.body.IsContainer()
    modifies node
    ensures node.parent == old(node.parent) && node.parentTree == old(node.parentTree)
    ensures ParseKids(w, base, end, ct).Err? ==> fault == Some(ParseKids(w, base, end, ct).error)
    ensures ParseKids(w, base, end, ct).Ok? ==>
              fault == None && fresh(S)
              && HoldsKids(node, node.childList, ParseKids(w, base, end, ct).value, S + {node})
              && Grown(node, S + {node}, d)
    decreases |w| - base, 2
  {
    hide ParseAt, HeadAt, Holds, Grown, HoldsKids;
    HoldsNone(node);
    S, d := {}, map[node := 0];
    GrownAlone(node);
    assert {} + {node} == {node};
    ghost var kids: seq<Node> := [];
    assert forall more: seq<Node> :: kids + more == more;
    var p := base;
    while p < end
      invariant base <= p <= |w|
      invariant node.parent == old(node.parent) && node.parentTree == old(node.parentTree)
      invariant fresh(S) && HoldsKids(node, node.childList, kids, S) && Grown(node, S + {node}, d)
      invariant ParseKids(w, base, end, ct) ==
                if ParseKids(w, p, end, ct).Err? then ParseKids(w, p, end, ct)
                else Ok(kids + ParseKids(w, p, end, ct).value)
      decreases |w| - p
    {
      ghost var t := ParseAt(w, p, ct);
      var r;
      r, S, d := ParseNext(w, p, ct, node, kids, S, d);
      if r.Err? {
        return Some(r.error), S, d;
      }
      assert forall more: seq<Node> :: kids + ([t.value] + more) == kids + [t.value] + more;
      kids := kids + [t.value];
      p := p + HeadAt(w, p, ct).value.len;
    }
    HoldsKidsInMore(node, node.childList, kids, S, S + {node});
    assert kids + [] == kids;
    fault := None;
  }

  /** One contained bank, with all below it. */
  method ParseNext(w: seq<u32>, p: nat, ct: ContainerType, node: DomNode,
                   ghost kids: seq<Node>, ghost S: set<DomNode>, ghost d: map<DomNode, nat>)
    returns (r: Result<DomNode, Fault>, ghost S': set<DomNode>, ghost d': map<DomNode, nat>)
    requires p <= |w| && node.body.IsContainer() && node !in S
    requires HoldsKids(node, node.childList, kids, S) && Grown(node, S + {node}, d)
    modifies node
    ensures node.parent == old(node.parent) && node.parentTree == old(node.parentTree)
    ensures ParseAt(w, p, ct).Err? ==> r == Err(ParseAt(w, p, ct).error)
    ensures ParseAt(w, p, ct).Ok? ==>
              r.Ok? && fresh(S' - S) && HoldsKids(node, node.childList, kids + [ParseAt(w, p, ct).value], S')
              && Grown(node, S' + {node}, d')
    decreases |w| - p, 1
  {
    hide ParseAt, HeadAt, Holds, HoldsKids, Grown;
    S', d' := S, d;
    ghost var t, before := ParseAt(w, p, ct), node.childList;
    ghost var T, e;
    label parsing:
    r, T, e := ParseBank(w, p, ct, node);
    if r.Err? {
      return;
    }
    S' := S + T;
    HoldsKidsInMore(node, before, kids, S, S');
    HoldsInMore(r.value, t.value, T, S');
    HoldsRoot(r.value, t.value, T);
    HoldsKidsAppend(node, before, kids, r.value, t.value, S');
    GrownMore@parsing(node, r.value, S + {node}, T, d, e);
    assert S + {node} + T == S' + {node};
    d' := Deeper(d, e);
  }

  /** The content type of a header has six bits. */
  lemma ContainerFits(w: seq<u32>, off: nat, bt: ContainerType)
    requires off <= |w| && HeadAt(w, off, bt).Ok?
    ensures match ContainerOf(HeadAt(w, off, bt).value.code)
            case None => true
            case Some(ct) => ct.IsContainer()
  {
  }

  lemma HoldsNone(n: DomNode)
    ensures HoldsKids(n, [], [], {})
  {
  }

  lemma GrownAlone(n: DomNode)
    requires n.childList == []
    ensures Grown(n, {n}, map[n := 0])
  {
  }

  /** A new child of `n`, with all that has grown from it. */
  twostate lemma GrownMore(new n: DomNode, new c: DomNode, S: set<DomNode>, new T: set<DomNode>,
                           new d: map<DomNode, nat>, new e: map<DomNode, nat>)
    requires n in S && old(allocated(d)) && old(Grown(n, S, d)) && n.body.IsContainer()
    requires fresh(T) && Grown(c, T, e) && c.parent == n && c.parentTree == null
    requires n.childList == old(n.childList) + [c]
    requires forall x <- S :: x.parent == old(x.parent) && x.parentTree == old(x.parentTree)
    requires forall x <- S :: x != n ==> x.childList == old(x.childList)
    ensures Grown(n, S + T, Deeper(d, e))
  {
    hide UnderParent, Lists, Deeper;
    Levels(d, e);
    forall x <- S + T ensures Lists(x, S + T) && (x != n ==> UnderParent(x, S + T, Deeper(d, e))) {
      if x in S {
        OldStays(x, n, c, S, T, d, e);
      } else {
        NewStays(x, n, c, S, T, d, e);
      }
    }
  }

  lemma Levels(d: map<DomNode, nat>, e: map<DomNode, nat>)
    requires d.Keys !! e.Keys
    ensures Deeper(d, e).Keys == d.Keys + e.Keys
    ensures forall x <- d :: Deeper(d, e)[x] == d[x]
    ensures forall x <- e :: Deeper(d, e)[x] == e[x] + 1
  {
  }

  twostate lemma OldStays(new x: DomNode, new n: DomNode, new c: DomNode, S: set<DomNode>, new T: set<DomNode>,
                          new d: map<DomNode, nat>, new e: map<DomNode, nat>)
    requires x in S && n in S && d.Keys == S && e.Keys == T && fresh(T) && c in T && c.parent == n && old(allocated(d))
    requires old(Lists(x, S)) && (x != n ==> old(UnderParent(x, S, d)))
    requires x.childList == if x == n then old(n.childList) + [c] else old(x.childList)
    requires x.parent == old(x.parent) && x.parentTree == old(x.parentTree)
    requires forall y <- S :: y.parent == old(y.parent) && forall z <- old(y.childList) :: z in y.childList
    ensures Lists(x, S + T) && (x != n ==> UnderParent(x, S + T, Deeper(d, e)))
  {
    hide Deeper;
    Levels(d, e);
  }

  lemma NewStays(x: DomNode, n: DomNode, c: DomNode, S: set<DomNode>, T: set<DomNode>,
                 d: map<DomNode, nat>, e: map<DomNode, nat>)
    requires x in T && c in T && n in S && d.Keys == S && e.Keys == T && S !! T && d[n] == 0 && e[c] == 0
    requires c.parent == n && c.parentTree == null && c in n.childList && n.body.IsContainer()
    requires Lists(x, T) && (x != c ==> UnderParent(x, T, e))
    ensures Lists(x, S + T) && UnderParent(x, S + T, Deeper(d, e))
  {
    hide Deeper;
    Levels(d, e);
  }

  lemma HoldsRoot(n: DomNode, t: Node, S: set<DomNode>)
    requires Holds(n, t, S)
    ensures n in S
  {
  }

  /** `evioDOMTree(buf)`: a tree object whose root is the parsed bank. */
  method ParseTree(w: seq<u32>) returns (r: Result<DomTree, Fault>, ghost S: set<DomNode>)
    ensures Parse(w).Err? ==> r == Err(Parse(w).error)
    ensures Parse(w).Ok? ==>
              r.Ok? && fresh(r.value) && fresh(S) && r.value.root != null
              && Holds(r.value.root, Parse(w).value, S)
              && r.value.root.parent == null && r.value.root.parentTree == r.value
              && Linked(S, {r.value}) && Acyclic(S)
  {
    hide Grown, Linked, Acyclic;
    var root;
    ghost var d;
    root, S, d := ParseBank(w, 0, Bank, null);
    if root.Err? {
      return Err(root.error), S;
    }
    var tree := new DomTree();
    HoldsRoot(root.value, Parse(w).value, S);
    label made:
    tree.root := root.value;
    root.value.parentTree := tree;
    HoldsKept@made(root.value, Parse(w).value, S);
    GrownStill@made(root.value, S, d);
    GrownLinked(tree, root.value, S, d);
    r := Ok(tree);
  }

  /** Whose root a node is does not matter to what has grown from it. */
  twostate lemma GrownStill(new n: DomNode, S: set<DomNode>, new d: map<DomNode, nat>)
    requires n in S && old(allocated(d)) && old(Grown(n, S, d))
    requires forall x <- S :: x.parent == old(x.parent) && x.childList == old(x.childList)
    requires forall x <- S :: x != n ==> x.parentTree == old(x.parentTree)
    ensures Grown(n, S, d)
  {
    forall x <- S | x != n ensures UnderParent(x, S, d) {
      assert old(UnderParent(x, S, d));
    }
  }
}

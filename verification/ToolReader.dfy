/** EvioTool's banks and leaves as objects, and the recursive reader that fills them in place. */
module ToolReader {
  import opened Words
  import opened EvioTree
  import Parse = EvioParse
  import opened ToolFill
  import opened ToolDelivery

  class Leaf {
    const tag: u16
    const num: u8
    var data: seq<Item>

    constructor (tag: u16, num: u8)
      ensures this.tag == tag && this.num == num && data == []
    {
      this.tag, this.num, data := tag, num, [];
    }
  }

  class Bank {
    const tags: seq<u16>
    const num: u8
    var thisTag: u16
    var thisNum: u8
    var leafs: seq<Leaf>
    var banks: seq<Bank>

    constructor (tags: seq<u16>, num: u8)
      ensures this.tags == tags && this.num == num
      ensures thisTag == 0 && thisNum == 0 && leafs == [] && banks == []
    {
      this.tags, this.num := tags, num;
      thisTag, thisNum, leafs, banks := 0, 0, [], [];
    }
  }

  // ----- what a heap of banks is worth -----

  /** Which objects make up a bank. */
  datatype Layout = Layout(bank: Bank, leafs: seq<Leaf>, kids: seq<Layout>)

  ghost function Banks(x: Layout): set<Bank>
    decreases x, 1
  {
    {x.bank} + AllBanks(x.kids)
  }

  ghost function AllBanks(xs: seq<Layout>): set<Bank>
    decreases xs, 0
  {
    if xs == [] then {} else Banks(xs[0]) + AllBanks(xs[1..])
  }

  ghost function Leaves(x: Layout): set<Leaf>
    decreases x, 1
  {
    (set l <- x.leafs) + AllLeaves(x.kids)
  }

  ghost function AllLeaves(xs: seq<Layout>): set<Leaf>
    decreases xs, 0
  {
    if xs == [] then {} else Leaves(xs[0]) + AllLeaves(xs[1..])
  }

  /** The objects are arranged as `x` says, each in one place only. */
  ghost predicate Laid(x: Layout)
    reads Banks(x)
    decreases x, 1
  {
    && x.bank.leafs == x.leafs && NoDuplicates(x.leafs)
    && x.bank.banks == BanksOf(x.kids)
    && x.bank !in AllBanks(x.kids) && (forall l <- x.leafs :: l !in AllLeaves(x.kids))
    && AllLaid(x.kids)
  }

  ghost predicate AllLaid(xs: seq<Layout>)
    reads AllBanks(xs)
    decreases xs, 0
  {
    if xs == [] then true
    else
      && Laid(xs[0]) && AllLaid(xs[1..])
      && Banks(xs[0]) !! AllBanks(xs[1..]) && Leaves(xs[0]) !! AllLeaves(xs[1..])
  }

  ghost function BanksOf(xs: seq<Layout>): (bs: seq<Bank>)
    ensures |bs| == |xs| && forall i :: 0 <= i < |xs| ==> bs[i] == xs[i].bank
  {
    seq(|xs|, i requires 0 <= i < |xs| => xs[i].bank)
  }

  ghost function LeafVals(ls: seq<Leaf>): (vs: seq<LeafV>)
    reads set l <- ls
    ensures |vs| == |ls| && forall i :: 0 <= i < |ls| ==> vs[i] == LeafV(ls[i].tag, ls[i].num, ls[i].data)
  {
    if ls == [] then [] else [LeafV(ls[0].tag, ls[0].num, ls[0].data)] + LeafVals(ls[1..])
  }

  ghost function Value(x: Layout): BankV
    reads Banks(x), Leaves(x)
    decreases x, 1
  {
    BankV(x.bank.tags, x.bank.num, x.bank.thisTag, x.bank.thisNum, LeafVals(x.leafs), Values(x.kids))
  }

  ghost function Values(xs: seq<Layout>): (vs: seq<BankV>)
    reads AllBanks(xs), AllLeaves(xs)
    ensures |vs| == |xs|
    decreases xs, 0
  {
    if xs == [] then [] else [Value(xs[0])] + Values(xs[1..])
  }

  lemma {:induction false} KidFacts(xs: seq<Layout>, i: nat)
    requires i < |xs|
    ensures Banks(xs[i]) <= AllBanks(xs) && Leaves(xs[i]) <= AllLeaves(xs)
    ensures AllLaid(xs) ==> Laid(xs[i])
    ensures Values(xs)[i] == Value(xs[i])
    decreases i
  {
    if i > 0 {
      KidFacts(xs[1..], i - 1);
    }
  }

  lemma {:induction false} Allocated(x: Layout)
    ensures forall b <- Banks(x) :: allocated(b)
    ensures forall l <- Leaves(x) :: allocated(l)
    decreases x, 1
  {
    AllAllocated(x.kids);
  }

  lemma {:induction false} AllAllocated(xs: seq<Layout>)
    ensures forall b <- AllBanks(xs) :: allocated(b)
    ensures forall l <- AllLeaves(xs) :: allocated(l)
    decreases xs, 0
  {
    if xs != [] {
      Allocated(xs[0]);
      AllAllocated(xs[1..]);
    }
  }

  // ----- frames -----

  /** These objects existed before and have not changed. */
  twostate predicate Kept(new B: set<Bank>, new L: set<Leaf>)
    reads B, L
  {
    && (forall b <- B :: old(allocated(b)) && b.leafs == old(b.leafs) && b.banks == old(b.banks)
                         && b.thisTag == old(b.thisTag) && b.thisNum == old(b.thisNum))
    && (forall l <- L :: old(allocated(l)) && l.data == old(l.data))
  }

  twostate lemma {:induction false} KeptValue(x: Layout)
    requires old(Laid(x)) && Kept(Banks(x), Leaves(x))
    ensures Laid(x) && Value(x) == old(Value(x))
    decreases x, 1
  {
    KeptLeafVals(x.leafs);
    KeptValues(x.kids);
  }

  twostate lemma {:induction false} KeptLeafVals(ls: seq<Leaf>)
    requires forall l <- ls :: l.data == old(l.data)
    ensures LeafVals(ls) == old(LeafVals(ls))
    decreases |ls|
  {
    if ls != [] {
      KeptLeafVals(ls[1..]);
    }
  }

  twostate lemma {:induction false} KeptValues(xs: seq<Layout>)
    requires old(AllLaid(xs)) && Kept(AllBanks(xs), AllLeaves(xs))
    ensures AllLaid(xs) && Values(xs) == old(Values(xs))
    decreases xs, 0
  {
    if xs != [] {
      KeptValue(xs[0]);
      KeptValues(xs[1..]);
    }
  }

  /** `y` consists of objects of `x` and of new ones. */
  twostate predicate Within(new y: Layout, new B: set<Bank>, new L: set<Leaf>) {
    && (forall b <- Banks(y) :: b in B || fresh(b))
    && (forall l <- Leaves(y) :: l in L || fresh(l))
  }

  twostate predicate AllWithin(new ys: seq<Layout>, new B: set<Bank>, new L: set<Leaf>) {
    && (forall b <- AllBanks(ys) :: b in B || fresh(b))
    && (forall l <- AllLeaves(ys) :: l in L || fresh(l))
  }

  /** One bank of a list rearranged, the others left alone. */
  twostate lemma {:induction false} ReplaceKid(xs: seq<Layout>, new i: nat, new y: Layout)
    requires i < |xs| && old(AllLaid(xs)) && Laid(y)
    requires Kept(AllBanks(xs) - Banks(xs[i]), AllLeaves(xs) - Leaves(xs[i]))
    requires forall b <- AllBanks(xs) :: old(allocated(b))
    requires forall l <- AllLeaves(xs) :: old(allocated(l))
    requires Within(y, Banks(xs[i]), Leaves(xs[i]))
    ensures AllLaid(xs[i := y]) && Values(xs[i := y]) == old(Values(xs))[i := Value(y)]
    ensures AllWithin(xs[i := y], AllBanks(xs), AllLeaves(xs))
    decreases i
  {
    hide Laid, Value, Banks, Leaves, BanksOf;
    var rest := xs[1..];
    if i == 0 {
      assert xs[0 := y][1..] == rest;
      KeptValues(rest);
    } else {
      KidFacts(rest, i - 1);
      assert rest[i - 1] == xs[i];
      assert xs[i := y][1..] == rest[i - 1 := y] && xs[i := y][0] == xs[0];
      ReplaceKid(rest, i - 1, y);
      KeptValue(xs[0]);
    }
  }

  twostate lemma {:induction false} AppendKid(xs: seq<Layout>, new y: Layout)
    requires old(AllLaid(xs)) && Laid(y)
    requires Kept(AllBanks(xs), AllLeaves(xs)) && Within(y, {}, {})
    ensures AllLaid(xs + [y]) && Values(xs + [y]) == old(Values(xs)) + [Value(y)]
    ensures AllBanks(xs + [y]) == AllBanks(xs) + Banks(y) && AllLeaves(xs + [y]) == AllLeaves(xs) + Leaves(y)
  {
    hide Laid, Value, Banks, Leaves, BanksOf;
    if xs == [] {
      assert (xs + [y])[1..] == [];
    } else {
      AppendKid(xs[1..], y);
      KeptValue(xs[0]);
      assert (xs + [y])[1..] == xs[1..] + [y];
    }
  }

  // ----- lookups -----

  lemma {:induction false} FoundLeaf(ls: seq<LeafV>, tag: u16, num: u8, i: nat)
    requires i <= |ls| && (i < |ls| ==> LeafMatches(ls[i], tag, num))
    requires forall k :: 0 <= k < i ==> !LeafMatches(ls[k], tag, num)
    ensures FindLeaf(ls, tag, num) == i
  {
  }

  lemma {:induction false} FoundBank(bs: seq<BankV>, tag: u16, num: u8, i: nat)
    requires i <= |bs| && (i < |bs| ==> BankMatches(bs[i], tag, num))
    requires forall k :: 0 <= k < i ==> !BankMatches(bs[k], tag, num)
    ensures FindBank(bs, tag, num) == i
  {
  }

  lemma BankAt(x: Layout, i: nat)
    requires Laid(x) && i < |x.kids|
    ensures |x.bank.banks| == |x.kids| && x.bank.banks[i] == x.kids[i].bank
    ensures Values(x.kids)[i].tags == x.kids[i].bank.tags && Values(x.kids)[i].num == x.kids[i].bank.num
  {
    KidFacts(x.kids, i);
  }

  /** `Bank::FindLeaf(tag, num)` */
  method FindLeafIn(node: Bank, tag: u16, num: u8, ghost x: Layout) returns (loc: int)
    requires x.bank == node && Laid(x)
    ensures var i := FindLeaf(Value(x).leafs, tag, num);
            loc == if i < |node.leafs| then i else -1
  {
    ghost var vs := LeafVals(x.leafs);
    for i := 0 to |node.leafs|
      invariant forall k :: 0 <= k < i ==> !LeafMatches(vs[k], tag, num)
    {
      if node.leafs[i].tag == tag && (node.leafs[i].num == 0 || node.leafs[i].num == num) {
        FoundLeaf(vs, tag, num, i);
        return i;
      }
    }
    FoundLeaf(vs, tag, num, |vs|);
    loc := -1;
  }

  /** `Bank::FindBank(tag, num)` */
  method FindBankIn(node: Bank, tag: u16, num: u8, ghost x: Layout) returns (loc: int)
    requires x.bank == node && Laid(x)
    ensures var i := FindBank(Value(x).banks, tag, num);
            loc == if i < |node.banks| then i else -1
  {
    ghost var vs := Values(x.kids);
    assert Value(x).banks == vs && |node.banks| == |vs|;
    forall i | 0 <= i < |x.kids|
      ensures node.banks[i] == x.kids[i].bank && vs[i].tags == x.kids[i].bank.tags && vs[i].num == x.kids[i].bank.num
    {
      BankAt(x, i);
    }
    hide Laid, Value, Values;
    for i := 0 to |node.banks|
      invariant forall k :: 0 <= k < i ==> !BankMatches(vs[k], tag, num)
    {
      if tag in node.banks[i].tags && (num == 0 || node.banks[i].num == 0 || node.banks[i].num == num) {
        FoundBank(vs, tag, num, i);
        return i;
      }
    }
    FoundBank(vs, tag, num, |vs|);
    loc := -1;
  }

  // ----- leaves -----

  /** A leaf written to, the others of the list left alone. */
  twostate lemma LeafValsPushed(ls: seq<Leaf>, new i: nat, new items: seq<Item>)
    requires i < |ls| && ls[i].data == old(ls[i].data) + items
    requires forall k :: 0 <= k < |ls| && k != i ==> ls[k].data == old(ls[k].data)
    ensures LeafVals(ls) == old(LeafVals(ls))[i := old(LeafVals(ls))[i].(data := old(LeafVals(ls))[i].data + items)]
  {
  }

  twostate lemma LeafValsAdded(ls: seq<Leaf>, new l: Leaf)
    requires forall k :: 0 <= k < |ls| ==> ls[k].data == old(ls[k].data)
    ensures LeafVals(ls + [l]) == old(LeafVals(ls)) + [LeafV(l.tag, l.num, l.data)]
  {
    forall k | 0 <= k < |ls| ensures (ls + [l])[k] == ls[k] && LeafVals(ls + [l])[k] == old(LeafVals(ls))[k] {
    }
  }

  twostate lemma LeafPushed(x: Layout, new i: nat, new items: seq<Item>)
    requires i < |x.leafs| && old(Laid(x))
    requires x.leafs[i].data == old(x.leafs[i].data) + items
    requires Kept(Banks(x), Leaves(x) - {x.leafs[i]})
    ensures Laid(x) && Value(x) == PushItems(old(Value(x)), i, items)
  {
    hide LeafVals, Values, AllLaid;
    assert x.leafs[i] in x.leafs;
    assert AllLeaves(x.kids) <= Leaves(x) - {x.leafs[i]};
    KeptValues(x.kids);
    assert forall k :: 0 <= k < |x.leafs| && k != i ==> x.leafs[k] in Leaves(x) - {x.leafs[i]};
    LeafValsPushed(x.leafs, i, items);
  }

  twostate lemma LeafAdded(x: Layout, new l: Leaf)
    requires old(Laid(x)) && fresh(l)
    requires x.bank.leafs == old(x.bank.leafs) + [l] && x.bank.banks == old(x.bank.banks)
    requires x.bank.thisTag == old(x.bank.thisTag) && x.bank.thisNum == old(x.bank.thisNum)
    requires Kept(AllBanks(x.kids), Leaves(x))
    ensures var y := x.(leafs := x.leafs + [l]);
            && Laid(y) && Value(y) == old(Value(x)).(leafs := old(Value(x)).leafs + [LeafV(l.tag, l.num, l.data)])
            && Within(y, Banks(x), Leaves(x))
  {
    hide LeafVals, Values, AllLaid;
    KeptValues(x.kids);
    assert forall k :: 0 <= k < |x.leafs| ==> x.leafs[k] in Leaves(x);
    LeafValsAdded(x.leafs, l);
  }

  /** `AddOrFillLeaf` and its specializations. */
  method AddOrFillLeaf(w: seq<u32>, base: nat, n: nat, h: Parse.Head, cfg: Config, node: Bank, ghost x: Layout)
    returns (fault: Option<Fault>, ghost y: Layout)
    requires base + n <= |w| && LeafCode(h.code) && x.bank == node && Laid(x)
    modifies Banks(x), Leaves(x)
    ensures var r := FillLeaf(w, base, n, h, cfg, old(Value(x)));
            match r
            case Err(e) => fault == Some(e)
            case Ok(v) => fault == None && y.bank == node && Laid(y) && Value(y) == v && Within(y, Banks(x), Leaves(x))
  {
    hide LeafItems;
    Allocated(x);
    y := x;
    var loc := FindLeafIn(node, h.tag, h.num, x);
    if loc == -1 && !cfg.autoAdd {
      return None, x;
    }
    // Reading the items touches no bank, so it may as well come before the new leaf is made.
    var items := LeafItems(w, base, n, h.code, h.padding, h.tag, node.thisTag);
    if items.Err? {
      return Some(items.error), x;
    }
    if loc == -1 {
      var leaf := new Leaf(h.tag, h.num);
      leaf.data := leaf.data + items.value;
      assert leaf.data == items.value;
      node.leafs := node.leafs + [leaf];
      LeafAdded(x, leaf);
      y := x.(leafs := x.leafs + [leaf]);
    } else {
      assert node.leafs[loc] in Leaves(x);
      node.leafs[loc].data := node.leafs[loc].data + items.value;
      LeafPushed(x, loc, items.value);
    }
    fault := None;
  }

  // ----- containers -----

  twostate lemma Retagged(x: Layout, new tag: u16, new num: u8)
    requires old(Laid(x)) && Kept(AllBanks(x.kids), Leaves(x))
    requires x.bank.thisTag == tag && x.bank.thisNum == num
    requires x.bank.leafs == old(x.bank.leafs) && x.bank.banks == old(x.bank.banks)
    ensures Laid(x) && Value(x) == old(Value(x)).(thisTag := tag, thisNum := num)
  {
    KeptLeafVals(x.leafs);
    KeptValues(x.kids);
  }

  /** Kid `i` of `x` has become `y`, everything else is as it was. */
  twostate lemma KidReplaced(x: Layout, new i: nat, new y: Layout)
    requires i < |x.kids| && old(Laid(x)) && Laid(y) && y.bank == x.kids[i].bank
    requires Kept(Banks(x) - Banks(x.kids[i]), Leaves(x) - Leaves(x.kids[i]))
    requires forall b <- Banks(x) :: old(allocated(b))
    requires forall l <- Leaves(x) :: old(allocated(l))
    requires Within(y, Banks(x.kids[i]), Leaves(x.kids[i]))
    ensures var z := x.(kids := x.kids[i := y]);
            && Laid(z) && Value(z) == old(Value(x)).(banks := old(Value(x)).banks[i := Value(y)])
            && Within(z, Banks(x), Leaves(x))
  {
    hide Values, AllLaid, LeafVals;
    KidFacts(x.kids, i);
    ReplaceKid(x.kids, i, y);
    assert forall l <- x.leafs :: l in Leaves(x) - Leaves(x.kids[i]);
    KeptLeafVals(x.leafs);
    assert BanksOf(x.kids[i := y]) == BanksOf(x.kids);
  }

  lemma Bare(b: Bank, k: Layout)
    requires k == Layout(b, [], []) && b.leafs == [] && b.banks == []
    ensures Banks(k) == {b} && Leaves(k) == {} && Laid(k)
    ensures Value(k) == BankV(b.tags, b.num, b.thisTag, b.thisNum, [], [])
  {
    assert AllBanks(k.kids) == {} && AllLeaves(k.kids) == {} && (set l <- k.leafs) == {};
    assert LeafVals(k.leafs) == [] && Values(k.kids) == [];
    assert BanksOf(k.kids) == [];
  }

  /** A bank of a bank, seen from outside. */
  lemma KidIn(x: Layout, i: nat)
    requires Laid(x) && i < |x.kids|
    ensures Banks(x.kids[i]) <= Banks(x) && Leaves(x.kids[i]) <= Leaves(x) && Laid(x.kids[i])
    ensures |Value(x).banks| == |x.kids| && Value(x).banks[i] == Value(x.kids[i])
  {
    KidFacts(x.kids, i);
  }

  twostate lemma KidAdded(x: Layout, new b: Bank)
    requires old(Laid(x)) && fresh(b) && b.leafs == [] && b.banks == []
    requires Kept(AllBanks(x.kids), Leaves(x))
    requires x.bank.leafs == old(x.bank.leafs) && x.bank.banks == old(x.bank.banks) + [b]
    requires x.bank.thisTag == old(x.bank.thisTag) && x.bank.thisNum == old(x.bank.thisNum)
    requires forall o <- Banks(x) :: old(allocated(o))
    ensures var z := x.(kids := x.kids + [Layout(b, [], [])]);
            && Laid(z) && Value(z)
               == old(Value(x)).(banks := old(Value(x)).banks + [BankV(b.tags, b.num, b.thisTag, b.thisNum, [], [])])
            && Within(z, Banks(x), Leaves(x))
  {
    var k := Layout(b, [], []);
    Bare(b, k);
    AppendKid(x.kids, k);
    KeptLeafVals(x.leafs);
    assert BanksOf(x.kids + [k]) == BanksOf(x.kids) + [b];
  }

  /** The index of the bank a route leads into, once the handler has run. */
  ghost function Target(r: Route, n: nat): nat { if r.Into? then r.i else n }

  /** The value the handler leaves behind. */
  ghost function Entered(r: Route, tag: u16, num: u8, b: BankV): BankV
    requires r.Into? ==> r.i < |b.banks|
  {
    match r
    case Here => b.(thisTag := tag, thisNum := num)
    case Into(i) => b.(banks := b.banks[i := b.banks[i].(thisTag := tag, thisNum := num)])
    case Added => b.(banks := b.banks + [BankV([tag], num, tag, num, [], [])])
    case Skipped => b
  }

  /** `ContainerNodeHandler`: the bank to parse a container into, or null to skip it. */
  method ContainerNodeHandler(node: Bank, tag: u16, num: u8, depth: int, cfg: Config, ghost x: Layout)
    returns (newNode: Bank?, ghost y: Layout)
    requires x.bank == node && Laid(x)
    modifies Banks(x), Leaves(x)
    ensures var v := old(Value(x));
            var r := RouteOf(v.banks, tag, num, depth, cfg);
            && Laid(y) && y.bank == node && Value(y) == Entered(r, tag, num, v) && Within(y, Banks(x), Leaves(x))
            && (r.Skipped? <==> newNode == null)
            && (r.Here? ==> newNode == node)
            && (r.Into? || r.Added? ==> Target(r, |v.banks|) < |y.kids| && newNode == y.kids[Target(r, |v.banks|)].bank)
  {
    Allocated(x);
    y := x;
    if depth < cfg.chopLevel || depth > cfg.maxLevel {
      node.thisTag, node.thisNum := tag, num;
      Retagged(x, tag, num);
      return node, x;
    }
    hide Laid, Value, Banks, Leaves;
    var loc := FindBankIn(node, tag, num, x);
    if loc != -1 {
      newNode, y := EnterBank(node, loc, tag, num, x);
    } else if cfg.autoAdd {
      newNode, y := AddNewBank(node, tag, num, x);
    } else {
      newNode := null;
    }
  }

  /** A bank found: it takes on the tag and num just read. */
  method EnterBank(node: Bank, loc: nat, tag: u16, num: u8, ghost x: Layout) returns (newNode: Bank, ghost y: Layout)
    requires x.bank == node && Laid(x) && loc < |Value(x).banks|
    modifies Banks(x), Leaves(x)
    ensures y == x && newNode == x.kids[loc].bank
    ensures Laid(y) && Value(y) == Entered(Into(loc), tag, num, old(Value(x))) && Within(y, Banks(x), Leaves(x))
  {
    Allocated(x);
    y := x;
    BankAt(x, loc);
    KidFacts(x.kids, loc);
    newNode := node.banks[loc];
    ghost var k := x.kids[loc];
    assert Laid(k) && Value(k) == Value(x).banks[loc];
    newNode.thisTag, newNode.thisNum := tag, num;
    Retagged(k, tag, num);
    KidReplaced(x, loc, k);
    assert x.kids[loc := k] == x.kids;
  }

  /** No bank found, and new ones may be added. */
  method AddNewBank(node: Bank, tag: u16, num: u8, ghost x: Layout) returns (newNode: Bank, ghost y: Layout)
    requires x.bank == node && Laid(x)
    modifies node
    ensures y.bank == node && |y.kids| == |old(Value(x)).banks| + 1 && newNode == y.kids[|y.kids| - 1].bank
    ensures Laid(y) && Value(y) == Entered(Added, tag, num, old(Value(x))) && Within(y, Banks(x), Leaves(x))
  {
    Allocated(x);
    assert AllBanks(x.kids) <= Banks(x) - {node};
    assert forall b <- AllBanks(x.kids) :: old(allocated(b)) && b != node;
    newNode := new Bank([tag], num);
    newNode.thisTag, newNode.thisNum := tag, num;
    node.banks := node.banks + [newNode];
    KidAdded(x, newNode);
    y := x.(kids := x.kids + [Layout(newNode, [], [])]);
  }

  /** The loop over a container that is skipped. */
  method SkipBanks(w: seq<u32>, base: nat, end: nat, ct: ContainerType) returns (fault: Option<Fault>)
    requires base <= |w| && end <= |w|
    ensures fault == if SkipKids(w, base, end, ct).Err? then Some(SkipKids(w, base, end, ct).error) else None
  {
    var p := base;
    while p < end
      invariant p <= |w| && SkipKids(w, base, end, ct) == SkipKids(w, p, end, ct)
      decreases |w| - p
    {
      if p + Hop(w[p], ct) > |w| {
        return Some(Overrun);
      }
      p := p + Hop(w[p], ct);
    }
    fault := None;
  }

  /** `EvioTool::ParseBank`: fills `node`, laid out as `x`, from the bank at `off`. */
  method ParseBank(w: seq<u32>, off: nat, bt: ContainerType, depth: int, cfg: Config, node: Bank, ghost x: Layout)
    returns (fault: Option<Fault>, ghost y: Layout)
    requires off <= |w| && x.bank == node && Laid(x)
    modifies Banks(x), Leaves(x)
    ensures match FillAt(w, off, bt, depth, cfg, old(Value(x)))
            case Err(e) => fault == Some(e)
            case Ok(v) => fault == None && y.bank == node && Laid(y) && Value(y) == v && Within(y, Banks(x), Leaves(x))
    decreases |w| - off, 0
  {
    hide Parse.HeadAt, Parse.ContainerOf, LeafCode, FillLeaf, Laid, Value, Banks, Leaves, FillContainer;
    y := x;
    var head := Parse.HeadAt(w, off, bt);
    if head.Err? {
      return Some(Overrun), x;
    }
    var h := head.value;
    var base, end := off + bt.HeaderLen(), off + h.len;
    if end > |w| {
      return Some(Overrun), x;
    }
    match Parse.ContainerOf(h.code)
    case Some(ct) =>
      fault, y := ParseContainer(w, base, end, ct, h.tag, h.num, depth, cfg, node, x);
    case None =>
      if !LeafCode(h.code) {
        SelfWithin(x);
        return None, x;
      }
      if end < base {
        return Some(BadCount), x;
      }
      fault, y := AddOrFillLeaf(w, base, end - base, h, cfg, node, x);
  }

  lemma SelfWithin(x: Layout)
    ensures forall b <- Banks(x) :: b in Banks(x)
  {
  }

  /** The container case: handler, then the loop over the contained banks. */
  method ParseContainer(w: seq<u32>, base: nat, end: nat, ct: ContainerType, tag: u16, num: u8, depth: int,
      cfg: Config, node: Bank, ghost x: Layout)
    returns (fault: Option<Fault>, ghost y: Layout)
    requires base <= |w| && end <= |w| && x.bank == node && Laid(x)
    modifies Banks(x), Leaves(x)
    ensures match FillContainer(w, base, end, ct, tag, num, depth, cfg, old(Value(x)))
            case Err(e) => fault == Some(e)
            case Ok(v) => fault == None && y.bank == node && Laid(y) && Value(y) == v && Within(y, Banks(x), Leaves(x))
    decreases |w| - base, 2
  {
    hide Laid, Value, Banks, Leaves, RouteOf, FillKids, SkipKids;
    ghost var v := Value(x);
    ghost var r := RouteOf(v.banks, tag, num, depth, cfg);
    var newNode;
    newNode, y := ContainerNodeHandler(node, tag, num, depth, cfg, x);
    Allocated(y);
    if newNode == null {
      fault := SkipBanks(w, base, end, ct);
      return;
    }
    ghost var j, x1 := Target(r, |v.banks|), y;
    if !r.Here? {
      KidIn(x1, j);
    }
    label entered:
    ghost var k;
    fault, k := ParseBanks(w, base, end, ct, depth + 1, cfg, newNode, if r.Here? then x1 else x1.kids[j]);
    if fault == None {
      if r.Here? {
        y := k;
      } else {
        KidReplaced@entered(x1, j, k);
        y := x1.(kids := x1.kids[j := k]);
      }
    }
  }

  /** The loop over the contained banks. */
  method ParseBanks(w: seq<u32>, base: nat, end: nat, ct: ContainerType, depth: int, cfg: Config, node: Bank,
      ghost x: Layout)
    returns (fault: Option<Fault>, ghost y: Layout)
    requires base <= |w| && end <= |w| && x.bank == node && Laid(x)
    modifies Banks(x), Leaves(x)
    ensures match FillKids(w, base, end, ct, depth, cfg, old(Value(x)))
            case Err(e) => fault == Some(e)
            case Ok(v) => fault == None && y.bank == node && Laid(y) && Value(y) == v && Within(y, Banks(x), Leaves(x))
    decreases |w| - base, 1
  {
    hide FillAt, Laid, Value, Banks, Leaves, Hop;
    y := x;
    var p := base;
    while p < end
      invariant base <= p <= |w|
      invariant y.bank == node && Laid(y) && Within(y, Banks(x), Leaves(x))
      invariant FillKids(w, base, end, ct, depth, cfg, old(Value(x))) == FillKids(w, p, end, ct, depth, cfg, Value(y))
      decreases |w| - p
    {
      fault, y := ParseBank(w, p, ct, depth, cfg, node, y);
      if fault.Some? {
        return;
      }
      if p + Hop(w[p], ct) > |w| {
        return Some(Overrun), y;
      }
      p := p + Hop(w[p], ct);
    }
    fault := None;
  }

  // ----- events -----

  /** The loop over the leaves in `Bank::Clear`. */
  method ClearLeafData(node: Bank)
    requires NoDuplicates(node.leafs)
    modifies node.leafs
    ensures LeafVals(node.leafs) == ClearLeafs(old(LeafVals(node.leafs)))
  {
    ghost var before := LeafVals(node.leafs);
    for i := 0 to |node.leafs|
      invariant forall k :: 0 <= k < |node.leafs| ==>
              node.leafs[k].data == if k < i then [] else old(node.leafs[k].data)
    {
      node.leafs[i].data := [];
    }
    assert LeafVals(node.leafs) == ClearLeafs(before);
  }

  /** `Bank::Clear` without the "Full" option. */
  method ClearBank(node: Bank, ghost x: Layout)
    requires x.bank == node && Laid(x)
    modifies Leaves(x)
    ensures Laid(x) && Value(x) == Clear(old(Value(x)))
    decreases x, 1
  {
    Allocated(x);
    assert forall b <- AllBanks(x.kids) :: b in Banks(x);
    assert forall l <- AllLeaves(x.kids) :: l in Leaves(x) && l !in x.leafs;
    assert forall l <- x.leafs :: l in Leaves(x);
    ClearLeafData(node);
    KeptValues(x.kids);
    label cleared:
    hide AllLaid, Values;
    ClearKids(node, x);
    KeptLeafVals@cleared(x.leafs);
  }

  /** The loop over the banks in `Bank::Clear`. */
  method ClearKids(node: Bank, ghost x: Layout)
    requires x.bank == node && Laid(x)
    modifies AllLeaves(x.kids)
    ensures AllLaid(x.kids) && Values(x.kids) == ClearBanks(old(Values(x.kids)))
    decreases x, 0
  {
    AllAllocated(x.kids);
    ghost var vs := Values(x.kids);
    hide Values, Laid, AllLaid, Banks, AllBanks, Leaves, AllLeaves;
    assert Laid(x) && node.banks == BanksOf(x.kids) && AllLaid(x.kids) by { LaidKids(x); }
    for i := 0 to |node.banks|
      invariant AllLaid(x.kids) && Values(x.kids) == ClearBanks(vs[..i]) + vs[i..]
    {
      label turn:
      KidFacts(x.kids, i);
      ClearBank(node.banks[i], x.kids[i]);
      ReplaceKid@turn(x.kids, i, x.kids[i]);
      assert x.kids[i := x.kids[i]] == x.kids;
      ClearBanksNext(vs, i);
    }
    assert vs[..|vs|] == vs && vs[|vs|..] == [];
  }

  lemma LaidKids(x: Layout)
    requires Laid(x)
    ensures x.bank.banks == BanksOf(x.kids) && AllLaid(x.kids)
  {
  }

  lemma {:induction false} ClearBanksNext(vs: seq<BankV>, i: nat)
    requires i < |vs|
    ensures ClearBanks(vs[..i + 1]) == ClearBanks(vs[..i]) + [Clear(vs[i])]
    ensures (ClearBanks(vs[..i]) + vs[i..])[i := Clear(vs[i])] == ClearBanks(vs[..i + 1]) + vs[i + 1..]
    decreases i
  {
    if i > 0 {
      ClearBanksNext(vs[1..], i - 1);
      assert vs[1..][..i] == vs[..i + 1][1..] && vs[1..][..i - 1] == vs[..i][1..];
    } else {
      assert vs[..1] == [vs[0]] && vs[..1][1..] == [];
    }
  }

  /** `EvioTool::ParseEvioBuff`; `node` is the reader itself. */
  method ParseEvioBuff(w: seq<u32>, masks: seq<u16>, cfg: Config, node: Bank, ghost x: Layout)
    returns (r: Result<Verdict, Fault>, ghost y: Layout)
    requires x.bank == node && Laid(x)
    modifies Banks(x), Leaves(x)
    ensures match FillEvent(w, masks, cfg, old(Value(x)))
            case Err(e) => r == Err(e)
            case Ok(v) => r == Ok(v.0) && y.bank == node && Laid(y) && Value(y) == v.1 && Within(y, Banks(x), Leaves(x))
  {
    y := x;
    if |w| < 2 {
      return Err(Overrun), x;
    }
    Allocated(x);
    assert AllBanks(x.kids) <= Banks(x) - {node};
    assert forall b <- AllBanks(x.kids) :: old(allocated(b)) && b != node;
    node.thisTag, node.thisNum := w[1] / 0x1_0000, w[1] % 0x100;
    Retagged(x, w[1] / 0x1_0000, w[1] % 0x100);
    hide Laid, Value, Banks, Leaves, FillAt, CheckTag;
    var verdict := Judge(w[1], masks, cfg, node.tags);
    assert Value(x).tags == node.tags by { TagsOf(x); }
    if verdict != Taken {
      return Ok(verdict), x;
    }
    var fault;
    fault, y := ParseBank(w, 0, Bank10, 0, cfg, node, x);
    r := if fault.Some? then Err(fault.value) else Ok(Taken);
  }

  lemma TagsOf(x: Layout)
    ensures Value(x).tags == x.bank.tags
  {
  }

  /** The part of `Next` between reading an event and putting it back: clear, then parse. */
  method ReadEvent(w: seq<u32>, fullErase: bool, masks: seq<u16>, cfg: Config, node: Bank, ghost x: Layout)
    returns (r: Result<Verdict, Fault>, ghost y: Layout)
    requires x.bank == node && Laid(x)
    modifies Banks(x), Leaves(x)
    ensures match FillEvent(w, masks, cfg, Cleared(old(Value(x)), fullErase))
            case Err(e) => r == Err(e)
            case Ok(v) => r == Ok(v.0) && y.bank == node && Laid(y) && Value(y) == v.1 && Within(y, Banks(x), Leaves(x))
  {
    ghost var z := x;
    if fullErase {
      node.leafs, node.banks := [], [];
      z := Layout(node, [], []);
      Bare(node, z);
      assert node in Banks(x);
    } else {
      ClearBank(node, x);
    }
    hide FillEvent, Laid, Value, Banks, Leaves, Clear;
    r, y := ParseEvioBuff(w, masks, cfg, node, z);
  }

  /** `ReadEvent` with the tags and masks of the reader for the HPS experiment. */
  method ReadHpsEvent(w: seq<u32>, maxLevel: int, node: Bank, ghost x: Layout)
    returns (r: Result<Verdict, Fault>, ghost y: Layout)
    requires x.bank == node && Laid(x) && node.tags == [128, 17]
    requires |w| >= 2 && w[1] / 0x100 % 0x40 in {0xe, 0x10}
    modifies Banks(x), Leaves(x)
    ensures var tag := w[1] / 0x1_0000;
            if tag / 128 % 2 == 1 || (tag % 2 == 1 && tag / 16 % 2 == 1) then r.Err? || r == Ok(Taken)
            else r == Ok(OtherTag)
  {
    TagsOf(x);
    ClearedTags(Value(x));
    HpsTags(w, maxLevel, Cleared(Value(x), false));
    hide FillEvent, Laid, Value, Banks, Leaves, Clear;
    r, y := ReadEvent(w, false, [128, 17], Config(false, 1, maxLevel), node, x);
  }

  lemma ClearedTags(b: BankV)
    ensures Cleared(b, false).tags == b.tags
  {
  }
}

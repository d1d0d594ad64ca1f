/** With `fAutoAdd` off, every booked leaf collects exactly the data routed to it, in buffer order,
    and nothing survives a `Clear`. */
module ToolDelivery {
  import opened Words
  import opened EvioTree
  import Parse = EvioParse
  import RoundTrip = EvioRoundTrip
  import opened ToolFill
  import opened ToolRouting

  /** A leaf of the bank tree, named by the banks to go down and its place in the last one. */
  datatype Place = Place(path: seq<nat>, leaf: nat)

  datatype Drop = Drop(place: Place, items: seq<Item>)

  // ----- the static part of a bank tree -----

  predicate SameLeafs(ls: seq<LeafV>, ls': seq<LeafV>) {
    |ls| == |ls'| && forall i :: 0 <= i < |ls| ==> ls[i].tag == ls'[i].tag && ls[i].num == ls'[i].num
  }

  /** Same booking: tags, nums and arrangement; data and last-seen tags may differ. */
  predicate SameShape(b: BankV, b': BankV)
    decreases b
  {
    && b.tags == b'.tags && b.num == b'.num && SameLeafs(b.leafs, b'.leafs)
    && |b.banks| == |b'.banks| && forall i :: 0 <= i < |b.banks| ==> SameShape(b.banks[i], b'.banks[i])
  }

  lemma {:induction false} ShapeRefl(b: BankV)
    ensures SameShape(b, b)
    decreases b
  {
    forall i | 0 <= i < |b.banks| ensures SameShape(b.banks[i], b.banks[i]) {
      ShapeRefl(b.banks[i]);
    }
  }

  lemma {:induction false} ShapeTrans(a: BankV, b: BankV, c: BankV)
    requires SameShape(a, b) && SameShape(b, c)
    ensures SameShape(a, c)
    decreases a
  {
    forall i | 0 <= i < |a.banks| ensures SameShape(a.banks[i], c.banks[i]) {
      ShapeTrans(a.banks[i], b.banks[i], c.banks[i]);
    }
  }

  lemma {:induction false} FindLeafSame(ls: seq<LeafV>, ls': seq<LeafV>, tag: u16, num: u8)
    requires SameLeafs(ls, ls')
    ensures FindLeaf(ls, tag, num) == FindLeaf(ls', tag, num)
    decreases |ls|
  {
    if ls != [] && !LeafMatches(ls[0], tag, num) {
      FindLeafSame(ls[1..], ls'[1..], tag, num);
    }
  }

  predicate SameBanks(bs: seq<BankV>, bs': seq<BankV>) {
    |bs| == |bs'| && forall i :: 0 <= i < |bs| ==> bs[i].tags == bs'[i].tags && bs[i].num == bs'[i].num
  }

  lemma {:induction false} FindBankSame(bs: seq<BankV>, bs': seq<BankV>, tag: u16, num: u8)
    requires SameBanks(bs, bs')
    ensures FindBank(bs, tag, num) == FindBank(bs', tag, num)
    decreases |bs|
  {
    if bs != [] && !BankMatches(bs[0], tag, num) {
      FindBankSame(bs[1..], bs'[1..], tag, num);
    }
  }

  lemma RouteSame(b: BankV, b': BankV, tag: u16, num: u8, depth: int, cfg: Config)
    requires SameShape(b, b')
    ensures RouteOf(b.banks, tag, num, depth, cfg) == RouteOf(b'.banks, tag, num, depth, cfg)
  {
    FindBankSame(b.banks, b'.banks, tag, num);
  }

  // ----- which data goes where: looks at the booking only -----

  /** The tag a bank has seen last, which EvioTool takes for the crate number, after node `t` went
      into it.  Only a pruned container changes it. */
  function CrateAfter(t: Node, depth: int, cfg: Config, crate: u16): u16
    decreases t, 1
  {
    if t.Container? && (depth < cfg.chopLevel || depth > cfg.maxLevel) then CratesAfter(t.kids, depth + 1, cfg, t.tag)
    else crate
  }

  function CratesAfter(ts: seq<Node>, depth: int, cfg: Config, crate: u16): u16
    decreases ts, 0
  {
    if ts == [] then crate else CratesAfter(ts[1..], depth, cfg, CrateAfter(ts[0], depth, cfg, crate))
  }

  function Deliveries(t: Node, depth: int, cfg: Config, b: BankV, crate: u16): seq<Drop>
    decreases t, 1
  {
    match t
    case Leaf(tag, num, p) =>
      var i := FindLeaf(b.leafs, tag, num);
      if i < |b.leafs| then [Drop(Place([], i), TreeItems(p, tag, crate))] else []
    case Container(tag, num, _, kids) =>
      match RouteOf(b.banks, tag, num, depth, cfg)
      case Here => AllDeliveries(kids, depth + 1, cfg, b, tag)
      case Into(i) => Under(i, AllDeliveries(kids, depth + 1, cfg, b.banks[i], tag))
      case Added => []
      case Skipped => []
  }

  function AllDeliveries(ts: seq<Node>, depth: int, cfg: Config, b: BankV, crate: u16): seq<Drop>
    decreases ts, 0
  {
    if ts == [] then []
    else
      Deliveries(ts[0], depth, cfg, b, crate)
      + AllDeliveries(ts[1..], depth, cfg, b, CrateAfter(ts[0], depth, cfg, crate))
  }

  /** Drops into bank `i`, seen from the bank that holds it. */
  function Under(i: nat, ds: seq<Drop>): seq<Drop> {
    if ds == [] then []
    else [Drop(Place([i] + ds[0].place.path, ds[0].place.leaf), ds[0].items)] + Under(i, ds[1..])
  }

  /** Everything dropped at one place, in order. */
  function Collected(ds: seq<Drop>, at: Place): seq<Item> {
    if ds == [] then []
    else (if ds[0].place == at then ds[0].items else []) + Collected(ds[1..], at)
  }

  predicate Booked(b: BankV, at: Place)
    decreases at.path
  {
    if at.path == [] then at.leaf < |b.leafs|
    else at.path[0] < |b.banks| && Booked(b.banks[at.path[0]], Place(at.path[1..], at.leaf))
  }

  function DataAt(b: BankV, at: Place): seq<Item>
    requires Booked(b, at)
    decreases at.path
  {
    if at.path == [] then b.leafs[at.leaf].data
    else DataAt(b.banks[at.path[0]], Place(at.path[1..], at.leaf))
  }

  lemma CollectedStep(ds: seq<Drop>, at: Place)
    requires ds != []
    ensures Collected(ds, at) == Collected(ds[..1], at) + Collected(ds[1..], at)
  {
    assert ds[..1][0] == ds[0] && ds[..1][1..] == [];
  }

  lemma {:induction false} CollectedAppend(ds: seq<Drop>, es: seq<Drop>, at: Place)
    ensures Collected(ds + es, at) == Collected(ds, at) + Collected(es, at)
  {
    if ds == [] {
      assert ds + es == es;
    } else {
      hide Collected;
      CollectedAppend(ds[1..], es, at);
      CollectedStep(ds, at);
      CollectedStep(ds + es, at);
      assert (ds + es)[..1] == ds[..1] && (ds + es)[1..] == ds[1..] + es;
    }
  }

  lemma {:induction false} CollectedUnder(i: nat, ds: seq<Drop>, at: Place)
    ensures Collected(Under(i, ds), at) ==
            if at.path != [] && at.path[0] == i then Collected(ds, Place(at.path[1..], at.leaf)) else []
  {
    if ds != [] {
      CollectedUnder(i, ds[1..], at);
      var d := ds[0].place;
      assert ([i] + d.path)[1..] == d.path;
      if at.path != [] && at.path[0] == i {
        assert at.path == [i] + at.path[1..];
        assert Place([i] + d.path, d.leaf) == at <==> d == Place(at.path[1..], at.leaf);
      }
    }
  }

  lemma {:induction false} BookedSame(b: BankV, b': BankV, at: Place)
    requires SameShape(b, b') && Booked(b, at)
    ensures Booked(b', at)
    decreases at.path
  {
    if at.path != [] {
      BookedSame(b.banks[at.path[0]], b'.banks[at.path[0]], Place(at.path[1..], at.leaf));
    }
  }

  /** Routing does not depend on what the leaves already hold. */
  lemma {:induction false} DeliveriesSame(t: Node, depth: int, cfg: Config, b: BankV, b': BankV, crate: u16)
    requires SameShape(b, b')
    ensures Deliveries(t, depth, cfg, b, crate) == Deliveries(t, depth, cfg, b', crate)
    decreases t, 1
  {
    match t
    case Leaf(tag, num, _) => FindLeafSame(b.leafs, b'.leafs, tag, num);
    case Container(tag, num, _, kids) =>
      RouteSame(b, b', tag, num, depth, cfg);
      match RouteOf(b.banks, tag, num, depth, cfg)
      case Here => AllDeliveriesSame(kids, depth + 1, cfg, b, b', tag);
      case Into(i) => AllDeliveriesSame(kids, depth + 1, cfg, b.banks[i], b'.banks[i], tag);
      case _ =>
  }

  lemma {:induction false} AllDeliveriesSame(ts: seq<Node>, depth: int, cfg: Config, b: BankV, b': BankV, crate: u16)
    requires SameShape(b, b')
    ensures AllDeliveries(ts, depth, cfg, b, crate) == AllDeliveries(ts, depth, cfg, b', crate)
    decreases ts, 0
  {
    if ts != [] {
      DeliveriesSame(ts[0], depth, cfg, b, b', crate);
      AllDeliveriesSame(ts[1..], depth, cfg, b, b', CrateAfter(ts[0], depth, cfg, crate));
    }
  }

  // ----- the delivery theorem -----

  /** `v` is `b` with exactly the drops `ds` appended where they belong. */
  ghost predicate Receives(v: BankV, b: BankV, ds: seq<Drop>) {
    SameShape(b, v) && forall at: Place :: Booked(b, at) && Booked(v, at) ==>
          DataAt(v, at) == DataAt(b, at) + Collected(ds, at)
  }

  lemma ReceivesNothing(b: BankV)
    ensures Receives(b, b, [])
  {
    ShapeRefl(b);
  }

  lemma ReceivesBoth(v: BankV, m: BankV, b: BankV, ds: seq<Drop>, es: seq<Drop>)
    requires Receives(m, b, ds) && Receives(v, m, es)
    ensures Receives(v, b, ds + es)
  {
    hide SameShape, Booked, DataAt, Collected;
    ShapeTrans(b, m, v);
    forall at: Place | Booked(b, at) && Booked(v, at)
      ensures DataAt(v, at) == DataAt(b, at) + Collected(ds + es, at)
    {
      BookedSame(b, m, at);
      CollectedAppend(ds, es, at);
      assert DataAt(b, at) + Collected(ds, at) + Collected(es, at)
             == DataAt(b, at) + (Collected(ds, at) + Collected(es, at));
    }
  }

  /** Last-seen tag and num are not part of the booking. */
  lemma ReceivesRetagged(v: BankV, b: BankV, ds: seq<Drop>, tag: u16, num: u8)
    requires Receives(v, b.(thisTag := tag, thisNum := num), ds)
    ensures Receives(v, b, ds)
  {
    var b' := b.(thisTag := tag, thisNum := num);
    forall at: Place | Booked(b, at) && Booked(v, at)
      ensures DataAt(v, at) == DataAt(b, at) + Collected(ds, at)
    {
      assert Booked(b', at) && DataAt(b', at) == DataAt(b, at);
    }
  }

  lemma ReceivesUnder(kid: BankV, b: BankV, i: nat, ds: seq<Drop>)
    requires i < |b.banks| && Receives(kid, b.banks[i], ds)
    ensures Receives(b.(banks := b.banks[i := kid]), b, Under(i, ds))
  {
    var v := b.(banks := b.banks[i := kid]);
    forall k | 0 <= k < |b.banks| ensures SameShape(b.banks[k], v.banks[k]) {
      ShapeRefl(b.banks[k]);
    }
    forall at: Place | Booked(b, at) && Booked(v, at)
      ensures DataAt(v, at) == DataAt(b, at) + Collected(Under(i, ds), at)
    {
      CollectedUnder(i, ds, at);
      if at.path != [] && at.path[0] == i {
        var below := Place(at.path[1..], at.leaf);
        assert Booked(b.banks[i], below) && Booked(kid, below);
      }
    }
  }

  lemma ReceivesLeaf(b: BankV, i: nat, items: seq<Item>)
    requires i < |b.leafs|
    ensures Receives(PushItems(b, i, items), b, [Drop(Place([], i), items)])
  {
    var v := PushItems(b, i, items);
    forall k | 0 <= k < |b.banks| ensures SameShape(b.banks[k], v.banks[k]) {
      ShapeRefl(b.banks[k]);
    }
    forall at: Place | Booked(b, at) && Booked(v, at)
      ensures DataAt(v, at) == DataAt(b, at) + Collected([Drop(Place([], i), items)], at)
    {
      assert Collected([Drop(Place([], i), items)], at) == if at == Place([], i) then items else [];
    }
  }

  /** Filling appends to every booked leaf the concatenation of what is routed to it, and to nothing
      else; the booking stays as it was. */
  lemma {:induction false} FillDelivers(t: Node, depth: int, cfg: Config, b: BankV)
    requires !cfg.autoAdd
    ensures Receives(FillTree(t, depth, cfg, b), b, Deliveries(t, depth, cfg, b, b.thisTag))
    ensures FillTree(t, depth, cfg, b).thisTag == CrateAfter(t, depth, cfg, b.thisTag)
    decreases t, 1
  {
    hide Receives, SameShape, TreeItems;
    match t
    case Leaf(tag, num, p) =>
      var i := FindLeaf(b.leafs, tag, num);
      if i < |b.leafs| {
        ReceivesLeaf(b, i, TreeItems(p, tag, b.thisTag));
      } else {
        ReceivesNothing(b);
      }
    case Container(tag, num, _, kids) =>
      match RouteOf(b.banks, tag, num, depth, cfg)
      case Here =>
        FillAllDelivers(kids, depth + 1, cfg, b.(thisTag := tag, thisNum := num));
        Retagged(kids, depth + 1, cfg, b, tag, num);
        ReceivesRetagged(FillTrees(kids, depth + 1, cfg, b.(thisTag := tag, thisNum := num)), b,
            AllDeliveries(kids, depth + 1, cfg, b, tag), tag, num);
      case Into(i) =>
        var kid := b.banks[i].(thisTag := tag, thisNum := num);
        FillAllDelivers(kids, depth + 1, cfg, kid);
        Retagged(kids, depth + 1, cfg, b.banks[i], tag, num);
        var v := FillTrees(kids, depth + 1, cfg, kid);
        ReceivesRetagged(v, b.banks[i], AllDeliveries(kids, depth + 1, cfg, b.banks[i], tag), tag, num);
        ReceivesUnder(v, b, i, AllDeliveries(kids, depth + 1, cfg, b.banks[i], tag));
      case Skipped => ReceivesNothing(b);
  }

  lemma Retagged(ts: seq<Node>, depth: int, cfg: Config, b: BankV, tag: u16, num: u8)
    ensures AllDeliveries(ts, depth, cfg, b.(thisTag := tag, thisNum := num), tag)
            == AllDeliveries(ts, depth, cfg, b, tag)
  {
    ShapeRefl(b);
    AllDeliveriesSame(ts, depth, cfg, b.(thisTag := tag, thisNum := num), b, tag);
  }

  lemma {:induction false} FillAllDelivers(ts: seq<Node>, depth: int, cfg: Config, b: BankV)
    requires !cfg.autoAdd
    ensures Receives(FillTrees(ts, depth, cfg, b), b, AllDeliveries(ts, depth, cfg, b, b.thisTag))
    ensures FillTrees(ts, depth, cfg, b).thisTag == CratesAfter(ts, depth, cfg, b.thisTag)
    decreases ts, 0
  {
    hide SameShape, FillTree, Deliveries, CrateAfter;
    if ts == [] {
      ReceivesNothing(b);
    } else {
      var m := FillTree(ts[0], depth, cfg, b);
      FillDelivers(ts[0], depth, cfg, b);
      FillAllDelivers(ts[1..], depth, cfg, m);
      AllDeliveriesSame(ts[1..], depth, cfg, b, m, m.thisTag);
      ReceivesBoth(FillTrees(ts[1..], depth, cfg, m), m, b, Deliveries(ts[0], depth, cfg, b, b.thisTag),
          AllDeliveries(ts[1..], depth, cfg, b, m.thisTag));
    }
  }

  // ----- Clear -----

  function ClearLeafs(ls: seq<LeafV>): (r: seq<LeafV>)
    ensures |r| == |ls| && forall i :: 0 <= i < |ls| ==> r[i] == ls[i].(data := [])
  {
    seq(|ls|, i requires 0 <= i < |ls| => ls[i].(data := []))
  }

  /** `Bank::Clear`: empties every leaf at every depth and keeps the booking. */
  function Clear(b: BankV): BankV
    decreases b, 1
  {
    b.(leafs := ClearLeafs(b.leafs), banks := ClearBanks(b.banks))
  }

  function ClearBanks(bs: seq<BankV>): (r: seq<BankV>)
    ensures |r| == |bs|
    decreases bs, 0
  {
    if bs == [] then [] else [Clear(bs[0])] + ClearBanks(bs[1..])
  }

  lemma {:induction false} ClearBanksAt(bs: seq<BankV>, i: nat)
    requires i < |bs|
    ensures ClearBanks(bs)[i] == Clear(bs[i])
    decreases i
  {
    if i > 0 {
      ClearBanksAt(bs[1..], i - 1);
    }
  }

  lemma {:induction false} ClearShape(b: BankV)
    ensures SameShape(b, Clear(b))
    decreases b
  {
    forall i | 0 <= i < |b.banks| ensures SameShape(b.banks[i], Clear(b).banks[i]) {
      ClearBanksAt(b.banks, i);
      ClearShape(b.banks[i]);
    }
  }

  lemma {:induction false} ClearEmpties(b: BankV, at: Place)
    requires Booked(b, at)
    ensures Booked(Clear(b), at) && DataAt(Clear(b), at) == []
    decreases at.path
  {
    if at.path != [] {
      ClearBanksAt(b.banks, at.path[0]);
      ClearEmpties(b.banks[at.path[0]], Place(at.path[1..], at.leaf));
    }
  }

  // ----- whole events -----

  lemma {:induction false} AgreesAt(v: BankV, m: BankV, at: Place)
    requires Agrees(v, m) && Booked(m, at)
    ensures Booked(v, at) && (Unclear !in DataAt(m, at) ==> DataAt(v, at) == DataAt(m, at))
    decreases at.path
  {
    if at.path != [] {
      AgreesAt(v.banks[at.path[0]], m.banks[at.path[0]], Place(at.path[1..], at.leaf));
    }
  }

  /** Nothing the drops bring is unclear. */
  predicate AllClear(ds: seq<Drop>) { forall i :: 0 <= i < |ds| ==> Unclear !in ds[i].items }

  lemma {:induction false} ClearCollected(ds: seq<Drop>, at: Place)
    requires AllClear(ds)
    ensures Unclear !in Collected(ds, at)
  {
    if ds != [] {
      ClearCollected(ds[1..], at);
    }
  }

  lemma {:induction false} SettledPlaces(b: BankV)
    requires forall at: Place :: Booked(b, at) ==> Unclear !in DataAt(b, at)
    ensures Settled(b)
    decreases b
  {
    forall i | 0 <= i < |b.leafs| ensures Unclear !in b.leafs[i].data {
      assert Booked(b, Place([], i)) && DataAt(b, Place([], i)) == b.leafs[i].data;
    }
    forall i | 0 <= i < |b.banks| ensures Settled(b.banks[i]) {
      forall at: Place | Booked(b.banks[i], at) ensures Unclear !in DataAt(b.banks[i], at) {
        var up := Place([i] + at.path, at.leaf);
        assert up.path[1..] == at.path;
        assert Booked(b, up) && DataAt(b, up) == DataAt(b.banks[i], at);
      }
      SettledPlaces(b.banks[i]);
    }
  }

  /** `v` holds at `at` what `ds` brings there, if that is clear. */
  predicate HoldsAt(v: BankV, at: Place, ds: seq<Drop>) {
    Booked(v, at) && (Unclear !in Collected(ds, at) ==> DataAt(v, at) == Collected(ds, at))
  }

  lemma {:induction false} AgreesShape(v: BankV, m: BankV)
    requires Agrees(v, m)
    ensures SameShape(m, v)
    decreases v
  {
    forall i | 0 <= i < |v.banks| ensures SameShape(m.banks[i], v.banks[i]) {
      AgreesShape(v.banks[i], m.banks[i]);
    }
  }

  /** `v` is booked as `b` is, and holds in every booked leaf what `ds` brings there, if that is clear. */
  ghost predicate HoldsOnly(v: BankV, b: BankV, ds: seq<Drop>) {
    SameShape(b, v) && forall at: Place :: Booked(b, at) ==> HoldsAt(v, at, ds)
  }

  /** Clear, then read any bank the tree parser accepts: every booked leaf holds exactly what is
      routed to it, whatever goes to the others, and nothing of what it held before.  If all that is
      routed is clear, the reader comes through. */
  lemma EventHoldsOnlyItself(w: seq<u32>, off: nat, bt: ContainerType, depth: int, cfg: Config, b: BankV)
    requires off <= |w| && Parse.ParseAt(w, off, bt).Ok? && !cfg.autoAdd
    ensures var ds := Deliveries(Parse.ParseAt(w, off, bt).value, depth, cfg, b, b.thisTag);
            var r := FillAt(w, off, bt, depth, cfg, Clear(b));
            (r.Ok? ==> HoldsOnly(r.value, b, ds)) && (AllClear(ds) ==> r.Ok?)
  {
    hide Deliveries, FillTree, FillAt, Parse.ParseAt, Agrees, Settled, Collected, SameShape;
    var t := Parse.ParseAt(w, off, bt).value;
    var ds := Deliveries(t, depth, cfg, b, b.thisTag);
    var v := FillTree(t, depth, cfg, Clear(b));
    AgreesRefl(Clear(b));
    FillAgrees(w, off, bt, depth, cfg, Clear(b), Clear(b));
    FillDelivers(t, depth, cfg, Clear(b));
    ClearShape(b);
    DeliveriesSame(t, depth, cfg, b, Clear(b), b.thisTag);
    forall at: Place | Booked(b, at) ensures Booked(v, at) && DataAt(v, at) == Collected(ds, at) {
      ClearEmpties(b, at);
      BookedSame(Clear(b), v, at);
    }
    if AllClear(ds) {
      forall at: Place | Booked(v, at) ensures Unclear !in DataAt(v, at) {
        ClearCollected(ds, at);
        ShapeBack(b, Clear(b), v, at);
      }
      SettledPlaces(v);
    }
    var r := FillAt(w, off, bt, depth, cfg, Clear(b));
    if r.Ok? {
      AgreesShape(r.value, v);
      ShapeTrans(b, Clear(b), v);
      ShapeTrans(b, v, r.value);
      forall at: Place | Booked(b, at) ensures HoldsAt(r.value, at, ds) {
        AgreesAt(r.value, v, at);
      }
    }
  }

  lemma {:induction false} ShapeSym(b: BankV, b': BankV)
    requires SameShape(b, b')
    ensures SameShape(b', b)
    decreases b
  {
    forall i | 0 <= i < |b.banks| ensures SameShape(b'.banks[i], b.banks[i]) {
      ShapeSym(b.banks[i], b'.banks[i]);
    }
  }

  lemma ShapeBack(b: BankV, c: BankV, v: BankV, at: Place)
    requires SameShape(b, c) && SameShape(c, v) && Booked(v, at)
    ensures Booked(b, at)
  {
    ShapeTrans(b, c, v);
    ShapeSym(b, v);
    BookedSame(v, b, at);
  }

  /** Whether an event is taken apart, as its tree tells. */
  function TreeVerdict(t: Node, masks: seq<u16>, cfg: Config, tags: seq<u16>): Verdict {
    if cfg.chopLevel > 0 && !(t.Container? && t.ctype.IsBank()) then WrongType
    else if cfg.chopLevel > 0 && !CheckTag(tags, masks, t.tag) then OtherTag
    else Taken
  }

  /** What it means for a bank tree to hold only what was routed: every leaf is booked as before, and its data
      are what the drops bring to its place, one after the other. */
  lemma HoldsTells(v: BankV, b: BankV, ds: seq<Drop>, at: Place)
    requires HoldsOnly(v, b, ds) && Booked(b, at)
    ensures Booked(v, at)
    ensures Unclear !in Collected(ds, at) ==> DataAt(v, at) == Collected(ds, at)
    ensures v.tags == b.tags && v.num == b.num && |v.leafs| == |b.leafs| && |v.banks| == |b.banks|
    ensures at.path == [] ==>
              v.leafs[at.leaf].tag == b.leafs[at.leaf].tag && v.leafs[at.leaf].num == b.leafs[at.leaf].num
              && DataAt(v, at) == v.leafs[at.leaf].data
    ensures |at.path| == 1 ==>
              var kid := v.banks[at.path[0]];
              && |kid.leafs| == |b.banks[at.path[0]].leafs| && at.leaf < |kid.leafs|
              && DataAt(v, at) == kid.leafs[at.leaf].data
  {
    BookedSame(b, v, at);
    if |at.path| == 1 {
      assert at.path[1..] == [];
      assert SameShape(b.banks[at.path[0]], v.banks[at.path[0]]);
    }
  }

  // ----- which events are taken apart -----

  function Bit(x: nat, k: nat): bool { if k == 0 then x % 2 == 1 else Bit(x / 2, k - 1) }

  function Power(n: nat): nat { if n == 0 then 1 else 2 * Power(n - 1) }

  predicate BitsAnd(a: nat, b: nat, c: nat, n: nat) {
    forall k :: 0 <= k < n ==> (Bit(c, k) <==> Bit(a, k) && Bit(b, k))
  }

  lemma BitsStep(a: nat, b: nat, c: nat, n: nat)
    ensures BitsAnd(a, b, c, n + 1) <==> (c % 2 == 1 <==> a % 2 == 1 && b % 2 == 1) && BitsAnd(a / 2, b / 2, c / 2, n)
  {
    if BitsAnd(a, b, c, n + 1) {
      assert Bit(c, 0) <==> Bit(a, 0) && Bit(b, 0);
      forall k | 0 <= k < n ensures Bit(c / 2, k) <==> Bit(a / 2, k) && Bit(b / 2, k) {
        assert Bit(c, k + 1) <==> Bit(a, k + 1) && Bit(b, k + 1);
      }
    }
    if (c % 2 == 1 <==> a % 2 == 1 && b % 2 == 1) && BitsAnd(a / 2, b / 2, c / 2, n) {
      forall k | 0 <= k < n + 1 ensures Bit(c, k) <==> Bit(a, k) && Bit(b, k) {
        assert k > 0 ==> (Bit(c / 2, k - 1) <==> Bit(a / 2, k - 1) && Bit(b / 2, k - 1));
      }
    }
  }

  lemma {:induction false} AndBits(a: nat, b: nat, c: nat, n: nat)
    requires a < Power(n) && b < Power(n) && c < Power(n)
    ensures And(a, b) == c <==> BitsAnd(a, b, c, n)
    decreases n
  {
    hide BitsAnd;
    if n > 0 {
      AndBits(a / 2, b / 2, c / 2, n - 1);
      BitsStep(a, b, c, n - 1);
      assert And(a, b) == 2 * And(a / 2, b / 2) + if a % 2 == 1 && b % 2 == 1 then 1 else 0;
    } else {
      NoBits(a, b, c);
    }
  }

  lemma NoBits(a: nat, b: nat, c: nat)
    ensures BitsAnd(a, b, c, 0)
  {
  }

  /** In the bits the mask selects the tag agrees with `want`, which has no others. */
  predicate Passes(tag: u16, mask: u16, want: u16) {
    forall k :: 0 <= k < 16 ==> (Bit(want, k) <==> Bit(tag, k) && Bit(mask, k))
  }

  lemma PassesAnd(tag: u16, mask: u16, want: u16)
    ensures And(tag, mask) == want <==> Passes(tag, mask, want)
  {
    assert Power(4) == 0x10 && Power(8) == 0x100 && Power(12) == 0x1000 && Power(16) == 0x1_0000;
    AndBits(tag, mask, want, 16);
  }

  /** Which events are taken apart.  Without chopping all are.  With it, those of another type than a bank
      of banks are not; one mask serves for all tags, as many masks as tags are paired with them, and the
      event is taken if one of these pairs lets its tag pass; any other booking lets all pass. */
  lemma TakenExactly(w: seq<u32>, masks: seq<u16>, cfg: Config, b: BankV)
    requires |w| >= 2
    ensures var tag, r := w[1] / 0x1_0000, FillEvent(w, masks, cfg, b);
            var typed, taken := w[1] / 0x100 % 0x40 in {0xe, 0x10}, r.Err? || r.value.0 == Taken;
            && (cfg.chopLevel <= 0 ==> taken)
            && (cfg.chopLevel > 0 && !typed ==> r.Ok? && r.value.0 == WrongType)
            && (cfg.chopLevel > 0 && typed && !taken ==> r.value.0 == OtherTag)
            && (cfg.chopLevel > 0 && typed && b.tags != [] && |masks| == 1 ==>
                  (taken <==> exists i :: 0 <= i < |b.tags| && Passes(tag, masks[0], b.tags[i])))
            && (cfg.chopLevel > 0 && typed && |b.tags| == |masks| != 1 ==>
                  (taken <==> exists i :: 0 <= i < |b.tags| && Passes(tag, masks[i], b.tags[i])))
            && (cfg.chopLevel > 0 && typed && |b.tags| != |masks| && (b.tags == [] || |masks| != 1) ==> taken)
  {
    hide FillAt, And, Passes;
    forall mask: u16, want: u16 ensures And(w[1] / 0x1_0000, mask) == want <==> Passes(w[1] / 0x1_0000, mask, want) {
      PassesAnd(w[1] / 0x1_0000, mask, want);
    }
    if |masks| == 1 && And(w[1] / 0x1_0000, masks[0]) in b.tags {
      var i :| 0 <= i < |b.tags| && b.tags[i] == And(w[1] / 0x1_0000, masks[0]);
      assert Passes(w[1] / 0x1_0000, masks[0], b.tags[i]);
    }
  }

  /** The reader for the HPS experiment: of chopped events those with bit 7 in their tag are taken, and
      those with bits 0 and 4. */
  lemma HpsTags(w: seq<u32>, maxLevel: int, b: BankV)
    requires |w| >= 2 && b.tags == [128, 17] && w[1] / 0x100 % 0x40 in {0xe, 0x10}
    ensures var tag, r := w[1] / 0x1_0000, FillEvent(w, [128, 17], Config(false, 1, maxLevel), b);
            if tag / 128 % 2 == 1 || (tag % 2 == 1 && tag / 16 % 2 == 1) then r.Err? || r.value.0 == Taken
            else r.Ok? && r.value.0 == OtherTag
  {
    hide FillAt, Passes;
    var tag := w[1] / 0x1_0000;
    var masks: seq<u16> := [128, 17];
    TakenExactly(w, masks, Config(false, 1, maxLevel), b);
    PassesAnd(tag, 128, 128);
    PassesAnd(tag, 17, 17);
    And128(tag);
    And17(tag);
    assert b.tags[0] == masks[0] == 128 && b.tags[1] == masks[1] == 17;
  }

  lemma And128(tag: u16)
    ensures And(tag, 128) == 128 <==> tag / 128 % 2 == 1
  {
    var a := tag / 2 / 2 / 2 / 2 / 2 / 2 / 2;
    assert a == tag / 128;
    assert And(a, 1) == if a % 2 == 1 then 1 else 0;
    AndTwice(tag / 2 / 2 / 2 / 2 / 2 / 2, 1);
    AndTwice(tag / 2 / 2 / 2 / 2 / 2, 2);
    AndTwice(tag / 2 / 2 / 2 / 2, 4);
    AndTwice(tag / 2 / 2 / 2, 8);
    AndTwice(tag / 2 / 2, 16);
    AndTwice(tag / 2, 32);
    AndTwice(tag, 64);
  }

  lemma AndTwice(a: nat, m: nat)
    ensures And(a, 2 * m) == 2 * And(a / 2, m)
  {
  }

  lemma And17(tag: u16)
    ensures And(tag, 17) == 17 <==> tag % 2 == 1 && tag / 16 % 2 == 1
  {
    var a := tag / 2 / 2 / 2 / 2;
    assert a == tag / 16;
    assert And(a, 1) == if a % 2 == 1 then 1 else 0;
    AndTwice(tag / 2 / 2 / 2, 1);
    AndTwice(tag / 2 / 2, 2);
    AndTwice(tag / 2, 4);
    assert tag == 0 || And(tag, 17) == 2 * And(tag / 2, 8) + if tag % 2 == 1 then 1 else 0;
  }

  /** What a full erase, if one is asked for, leaves booked. */
  function Rebooked(b: BankV, full: bool): BankV { if full then b.(leafs := [], banks := []) else b }

  /** What `Clear` leaves of a bank, with the "Full" option or without. */
  function Cleared(b: BankV, full: bool): BankV { if full then b.(leafs := [], banks := []) else Clear(b) }

  lemma ClearedRetagged(b: BankV, full: bool, tag: u16, num: u8)
    ensures Cleared(b, full).tags == b.tags
    ensures Cleared(b, full).(thisTag := tag, thisNum := num)
            == Clear(Rebooked(b, full).(thisTag := tag, thisNum := num))
  {
  }

  /** Last-seen tag and num are not part of the booking. */
  lemma HoldsRetagged(v: BankV, b: BankV, ds: seq<Drop>, tag: u16, num: u8)
    ensures SameShape(b, b.(thisTag := tag, thisNum := num))
    ensures HoldsOnly(v, b.(thisTag := tag, thisNum := num), ds) <==> HoldsOnly(v, b, ds)
  {
    hide HoldsAt;
    var b' := b.(thisTag := tag, thisNum := num);
    ShapeRefl(b);
    forall at: Place ensures Booked(b, at) == Booked(b', at) {
    }
  }

  lemma ClearHoldsNothing(b: BankV)
    ensures HoldsOnly(Clear(b), b, [])
  {
    ClearShape(b);
    forall at: Place | Booked(b, at) ensures HoldsAt(Clear(b), at, []) {
      ClearEmpties(b, at);
    }
  }

  lemma VerdictAgrees(w: seq<u32>, masks: seq<u16>, cfg: Config, tags: seq<u16>)
    requires Parse.Parse(w).Ok?
    ensures |w| >= 2 && w[1] / 0x1_0000 == Parse.Parse(w).value.tag
    ensures Judge(w[1], masks, cfg, tags) == TreeVerdict(Parse.Parse(w).value, masks, cfg, tags)
    ensures Parse.ParseAt(w, 0, Bank10) == Parse.Parse(w)
  {
    hide CheckTag, Parse.ReadLeaf, Parse.ParseKids;
    var h := Parse.HeadAt(w, 0, Bank).value;
    if Parse.ContainerOf(h.code).None? {
      RoundTrip.ReadLeafCode(w, 2, h.len - 2, h.code, h.padding);
    }
  }

  /** What `Next` makes of an event.  One that is not taken leaves every booked leaf empty; of one
      that is, every booked leaf holds exactly the data routed to it, in buffer order, whatever the
      other leaves get.  A full erase leaves nothing booked. */
  lemma NextDelivers(w: seq<u32>, full: bool, masks: seq<u16>, cfg: Config, b: BankV)
    requires Parse.Parse(w).Ok? && !cfg.autoAdd
    ensures var t, r := Parse.Parse(w).value, FillEvent(w, masks, cfg, Cleared(b, full));
            var verdict, booked := TreeVerdict(t, masks, cfg, b.tags), Rebooked(b, full);
            var ds := if verdict == Taken then Deliveries(t, 0, cfg, booked, t.tag) else [];
            (r.Ok? ==> r.value.0 == verdict && HoldsOnly(r.value.1, booked, ds)) && (AllClear(ds) ==> r.Ok?)
  {
    hide Deliveries, FillAt, Parse.Parse, Parse.ParseAt, Judge, TreeVerdict, AllClear, HoldsOnly, Clear, SameShape;
    VerdictAgrees(w, masks, cfg, b.tags);
    var t, booked := Parse.Parse(w).value, Rebooked(b, full);
    var b' := booked.(thisTag := t.tag, thisNum := w[1] % 0x100);
    ClearedRetagged(b, full, t.tag, w[1] % 0x100);
    EventHoldsOnlyItself(w, 0, Bank10, 0, cfg, b');
    ClearHoldsNothing(b');
    forall v: BankV, ds: seq<Drop> ensures HoldsOnly(v, b', ds) <==> HoldsOnly(v, booked, ds) {
      HoldsRetagged(v, booked, ds, t.tag, w[1] % 0x100);
    }
    HoldsRetagged(booked, booked, [], t.tag, w[1] % 0x100);
    DeliveriesSame(t, 0, cfg, booked, b', t.tag);
  }

  /** The same for the words the tree writer makes of a faithful tree, whatever stands behind them. */
  lemma {:induction false} WrittenEventDelivered(t: Node, post: seq<u32>, full: bool, masks: seq<u16>, cfg: Config,
      b: BankV)
    requires Writable(t, Bank) && Faithful(t, Bank) && !cfg.autoAdd
    ensures var r := FillEvent(Ser(t, Bank) + post, masks, cfg, Cleared(b, full));
            var verdict, booked := TreeVerdict(t, masks, cfg, b.tags), Rebooked(b, full);
            var ds := if verdict == Taken then Deliveries(t, 0, cfg, booked, t.tag) else [];
            (r.Ok? ==> r.value.0 == verdict && HoldsOnly(r.value.1, booked, ds)) && (AllClear(ds) ==> r.Ok?)
  {
    hide FillEvent, Deliveries, HoldsOnly, AllClear, Cleared, Rebooked, Ser, Writable, Faithful, TreeVerdict;
    RoundTrip.RoundTrip(t, post);
    NextDelivers(Ser(t, Bank) + post, full, masks, cfg, b);
  }
}

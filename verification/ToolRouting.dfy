/** EvioTool's reader against the plain tree parse: what ends up in which booked leaf. */
module ToolRouting {
  import opened Words
  import opened EvioTree
  import Parse = EvioParse
  import RoundTrip = EvioRoundTrip
  import opened ToolFill
  import Fadc

  // ----- the two string readers -----

  predicate AllPrintable(s: seq<u8>) { forall i :: 0 <= i < |s| ==> Printable(s[i]) }

  predicate RunsFit(ss: seq<seq<u8>>) { forall i :: 0 <= i < |ss| ==> ss[i] != [] && AllPrintable(ss[i]) }

  lemma RunRead(b: seq<u8>, s: seq<u8>)
    requires |s| < |b| && b[..|s|] == s && b[|s|] == 0
    ensures if AllPrintable(s) then PrintLen(b) == |s| else PrintLen(b) < |s|
  {
    assert forall i :: 0 <= i < |s| ==> b[i] == s[i];
    assert PrintLen(b) < |s| ==> !Printable(s[PrintLen(b)]);
  }

  lemma RunsFitCons(ss: seq<seq<u8>>)
    requires ss != []
    ensures RunsFit(ss) <==> ss[0] != [] && AllPrintable(ss[0]) && RunsFit(ss[1..])
  {
    hide AllPrintable;
    assert forall i :: 1 <= i < |ss| ==> ss[i] == ss[1..][i - 1];
  }

  /** Whatever the reader yields is non-empty and printable. */
  lemma {:induction false} RunsAreFit(b: seq<u8>, limit: int)
    ensures ReadRuns(b, limit).Ok? ==> RunsFit(ReadRuns(b, limit).value)
    decreases |b|
  {
    if limit > 0 && b != [] && b[0] != EOT {
      var k := PrintLen(b);
      if k < |b| {
        RunsAreFit(b[k + 1..], limit - (k + 1));
      }
    }
  }

  /** EvioTool's string reader undoes the writer's layout, for every total length modulo 4, on
      exactly the lists of non-empty printable strings. */
  lemma {:induction false} RunsRead(b: seq<u8>, ss: seq<seq<u8>>, pad: nat)
    requires At(b, 0, Join(ss) + Fill(pad, EOT))
    ensures ReadRuns(b, |Join(ss)| + pad) == Ok(ss) <==> RunsFit(ss)
  {
    if RunsFit(ss) {
      FitRunsRead(b, ss, pad);
    } else {
      RunsAreFit(b, |Join(ss)| + pad);
    }
  }

  lemma OneRun(b: seq<u8>, limit: int, k: nat, rest: seq<seq<u8>>)
    requires limit > 0 && k == PrintLen(b) && 0 < k < |b| && ReadRuns(b[k + 1..], limit - (k + 1)) == Ok(rest)
    ensures ReadRuns(b, limit) == Ok([b[..k]] + rest)
  {
    assert Printable(b[0]);
  }

  lemma NoRun(b: seq<u8>, pad: nat)
    requires At(b, 0, Join([]) + Fill(pad, EOT))
    ensures ReadRuns(b, |Join([])| + pad) == Ok([])
  {
    if pad > 0 {
      AtIndex(b, 0, Join([]) + Fill(pad, EOT), 0);
    }
  }

  lemma {:induction false} FitRunsRead(b: seq<u8>, ss: seq<seq<u8>>, pad: nat)
    requires At(b, 0, Join(ss) + Fill(pad, EOT)) && RunsFit(ss)
    ensures ReadRuns(b, |Join(ss)| + pad) == Ok(ss)
  {
    hide At, PrintLen, AllPrintable, Join, RunsFit, ReadRuns, Fill;
    if ss == [] {
      NoRun(b, pad);
    } else {
      RoundTrip.FirstString(b, ss, pad);
      RunsFitCons(ss);
      var s := ss[0];
      RunRead(b, s);
      FitRunsRead(b[|s| + 1..], ss[1..], pad);
      OneRun(b, |Join(ss)| + pad, |s|, ss[1..]);
      assert ss == [s] + ss[1..];
    }
  }

  /** The runs of printable bytes, as long as they come. */
  function Runs(b: seq<u8>): seq<seq<u8>> {
    if b == [] then []
    else
      var k := PrintLen(b);
      if k == |b| then [b] else (if k > 0 then [b[..k]] else []) + Runs(b[k + 1..])
  }

  /** Any strings the writer has laid out, as long as they are free of EOT, come out as their printable
      runs: text with line ends, say, line by line. */
  lemma {:induction false} LinesRead(b: seq<u8>, text: seq<u8>, pad: nat)
    requires At(b, 0, text + Fill(pad, EOT)) && EOT !in text
    requires text != [] ==> text[|text| - 1] == 0
    ensures ReadRuns(b, |text| + pad) == Ok(Runs(text))
    decreases |text|
  {
    hide Runs, ReadRuns, PrintLen;
    var all := text + Fill(pad, EOT);
    assert b[..|all|] == all;
    if text == [] {
      NoRun(b, pad);
      RunsStep(text);
    } else {
      var k := PrintLen(text);
      assert !Printable(text[|text| - 1]);
      FirstRun(b, text, k);
      var rest := b[k + 1..];
      assert rest[..|all| - k - 1] == text[k + 1..] + Fill(pad, EOT);
      LinesRead(rest, text[k + 1..], pad);
      ReadStep(b, |text| + pad, k, Runs(text[k + 1..]));
      RunsStep(text);
    }
  }

  lemma RunsStep(text: seq<u8>)
    ensures text == [] ==> Runs(text) == []
    ensures var k := PrintLen(text);
            k < |text| ==> Runs(text) == (if k > 0 then [text[..k]] else []) + Runs(text[k + 1..])
  {
  }

  lemma ReadStep(b: seq<u8>, limit: int, k: nat, rest: seq<seq<u8>>)
    requires limit > 0 && k == PrintLen(b) < |b| && b[0] != EOT && ReadRuns(b[k + 1..], limit - (k + 1)) == Ok(rest)
    ensures ReadRuns(b, limit) == Ok((if k > 0 then [b[..k]] else []) + rest)
  {
    assert [] + rest == rest;
  }

  lemma FirstRun(b: seq<u8>, text: seq<u8>, k: nat)
    requires |text| <= |b| && text == b[..|text|] && k == PrintLen(text) < |text|
    ensures PrintLen(b) == k && b[..k] == text[..k]
  {
    assert forall i :: 0 <= i < |text| ==> b[i] == text[i];
  }

  // ----- what a leaf of the tree is read as -----

  /** Four-byte data and printable strings; for these the reader's counts are right. */
  predicate Plain(p: Payload) { p.Words32? || (p.Text? && RunsFit(p.strings)) }

  function PlainItems(p: Payload): seq<Item>
    requires Plain(p)
  {
    match p
    case Words32(_, ws) => Items32(ws)
    case Text(ss) => ItemsStr(ss)
  }

  /** The slot records in the data words of a composite leaf. */
  function CompositeItems(data: seq<u32>, tag: u16, crate: u16): seq<Item> {
    var r := Fadc.Records(Bytes(data, 0, 4 * |data|), 0, 4 * |data| - 4, tag, crate % 0x100);
    if |data| < 0x7fff_ffff && r.Ok? then ItemsPulse(r.value) else [Unclear]
  }

  /** What EvioTool makes of a leaf, as far as the tree tells: of two- and one-byte data it takes as
      many values as there are words; of eight-byte data it takes more than the leaf holds. */
  function TreeItems(p: Payload, tag: u16, crate: u16): seq<Item> {
    match p
    case Words16(_, hs) => ItemsHalf(hs[..(|hs| + 1) / 2])
    case Words8(_, bs) => ItemsChar(bs[..(|bs| + 3) / 4])
    case Composite(_, _, _, _, ws) => CompositeItems(ws, tag, crate)
    case _ => if Plain(p) then PlainItems(p) else [Unclear]
  }

  lemma PlainIsClear(p: Payload, tag: u16, crate: u16)
    requires Plain(p)
    ensures TreeItems(p, tag, crate) == PlainItems(p) && Unclear !in PlainItems(p)
  {
  }

  lemma CompositeAgrees(w: seq<u32>, base: nat, tag: u16, crate: u16)
    requires base <= |w| && Parse.ReadComposite(w, base).Ok?
    ensures var items := CompositeItems(Parse.ReadComposite(w, base).value.data, tag, crate);
            Unclear !in items ==> FadcItems(w, base, tag, crate) == Ok(items)
  {
    hide Fadc.Records;
    var formatLen := w[base] % 0x1_0000;
    var start := base + 3 + formatLen;
    var data := Parse.ReadComposite(w, base).value.data;
    var b, all := Bytes(data, 0, 4 * |data|), Bytes(w, 4 * start, 4 * (|w| - start));
    var limit := 4 * |data| - 4;
    if |data| < 0x7fff_ffff && Fadc.Records(b, 0, limit, tag, crate % 0x100).Ok? {
      forall i | 0 <= i < |b| ensures b[i] == all[i] {
        assert (4 * start + i) / 4 == start + i / 4 && (4 * start + i) % 4 == i % 4;
        assert data[i / 4] == w[start + i / 4];
        assert b[i] == ByteAt(data, i) && all[i] == ByteAt(w, 4 * start + i);
      }
      assert all == b + all[|b|..];
      Fadc.RecordsInLonger(b, all[|b|..], 0, limit, tag, crate % 0x100);
    }
  }

  /** A leaf the tree parser accepts is one EvioTool knows, and is read as the tree tells. */
  lemma LeafAgrees(w: seq<u32>, base: nat, n: nat, code: u8, padding: nat, tag: u16, crate: u16)
    requires base + n <= |w| && padding < 4 && Parse.ReadLeaf(w, base, n, code, padding).Ok?
    ensures LeafCode(code)
    ensures var items := TreeItems(Parse.ReadLeaf(w, base, n, code, padding).value, tag, crate);
            Unclear !in items ==> LeafItems(w, base, n, code, padding, tag, crate) == Ok(items)
  {
    hide Parse.ReadComposite, Parse.ReadStrings, ReadRuns, FadcItems, RunsFit, CompositeItems, Quads;
    if code == 0x3 {
      var b, limit := Bytes(w, 4 * base, 4 * (|w| - base)), 4 * n - padding;
      var ss := Parse.ReadStrings(b, limit).value;
      if RunsFit(ss) {
        StringsAgree(b, limit, ss);
      }
    } else if code == 0xf {
      CompositeAgrees(w, base, tag, crate);
      CompositeRead(w, base);
    } else if code == 0x4 || code == 0x5 {
      assert Halves(w, base, 2 * n - padding / 2)[..n] == Halves(w, base, n);
    } else if code == 0x6 || code == 0x7 {
      assert Bytes(w, 4 * base, 4 * n - padding)[..n] == Bytes(w, 4 * base, n);
    }
  }

  lemma CompositeRead(w: seq<u32>, base: nat)
    requires base <= |w|
    ensures Parse.ReadComposite(w, base).Ok? ==> Parse.ReadComposite(w, base).value.Composite?
  {
  }

  // ----- filling from a tree -----

  /** The bank tree with every leaf of `t` routed to where it goes. */
  function FillTree(t: Node, depth: int, cfg: Config, b: BankV): BankV
    decreases t, 1
  {
    match t
    case Leaf(tag, num, p) =>
      var i := FindLeaf(b.leafs, tag, num);
      if i < |b.leafs| then PushItems(b, i, TreeItems(p, tag, b.thisTag))
      else if cfg.autoAdd then b.(leafs := b.leafs + [LeafV(tag, num, TreeItems(p, tag, b.thisTag))])
      else b
    case Container(tag, num, _, kids) =>
      match RouteOf(b.banks, tag, num, depth, cfg)
      case Here => FillTrees(kids, depth + 1, cfg, b.(thisTag := tag, thisNum := num))
      case Into(i) =>
        b.(banks := b.banks[i := FillTrees(kids, depth + 1, cfg, b.banks[i].(thisTag := tag, thisNum := num))])
      case Added =>
        b.(banks := b.banks + [FillTrees(kids, depth + 1, cfg, BankV([tag], num, tag, num, [], []))])
      case Skipped => b
  }

  function FillTrees(ts: seq<Node>, depth: int, cfg: Config, b: BankV): BankV
    decreases ts, 0
  {
    if ts == [] then b else FillTrees(ts[1..], depth, cfg, FillTree(ts[0], depth, cfg, b))
  }

  predicate LeafsAgree(ls: seq<LeafV>, ms: seq<LeafV>) {
    |ls| == |ms| && forall i :: 0 <= i < |ls| ==>
      ls[i].tag == ms[i].tag && ls[i].num == ms[i].num && (Unclear in ms[i].data || ls[i].data == ms[i].data)
  }

  /** The bank trees are equal but for leaves that `m` does not settle. */
  predicate Agrees(v: BankV, m: BankV)
    decreases v
  {
    && v.tags == m.tags && v.num == m.num && v.thisTag == m.thisTag && v.thisNum == m.thisNum
    && LeafsAgree(v.leafs, m.leafs)
    && |v.banks| == |m.banks| && forall i :: 0 <= i < |v.banks| ==> Agrees(v.banks[i], m.banks[i])
  }

  /** Every leaf's data is known. */
  predicate Settled(m: BankV)
    decreases m
  {
    && (forall i :: 0 <= i < |m.leafs| ==> Unclear !in m.leafs[i].data)
    && forall i :: 0 <= i < |m.banks| ==> Settled(m.banks[i])
  }

  lemma {:induction false} AgreesRefl(b: BankV)
    ensures Agrees(b, b)
    decreases b
  {
    forall i | 0 <= i < |b.banks| ensures Agrees(b.banks[i], b.banks[i]) {
      AgreesRefl(b.banks[i]);
    }
  }

  lemma {:induction false} SettledEqual(v: BankV, m: BankV)
    requires Agrees(v, m) && Settled(m)
    ensures v == m
    decreases v
  {
    forall i | 0 <= i < |v.banks| ensures v.banks[i] == m.banks[i] {
      SettledEqual(v.banks[i], m.banks[i]);
    }
    assert v.leafs == m.leafs;
    assert v.banks == m.banks;
  }

  /** What is unclear stays so. */
  lemma {:induction false} SettledBefore(t: Node, depth: int, cfg: Config, m: BankV)
    requires Settled(FillTree(t, depth, cfg, m))
    ensures Settled(m)
    decreases t, 1
  {
    hide TreeItems, FindLeaf, RouteOf;
    var r := FillTree(t, depth, cfg, m);
    match t
    case Leaf(tag, num, p) =>
      forall i | 0 <= i < |m.leafs| ensures Unclear !in m.leafs[i].data {
        assert Unclear !in r.leafs[i].data;
      }
    case Container(tag, num, _, kids) =>
      match RouteOf(m.banks, tag, num, depth, cfg)
      case Here => AllSettledBefore(kids, depth + 1, cfg, m.(thisTag := tag, thisNum := num));
      case Into(i) =>
        assert r.banks[i] == FillTrees(kids, depth + 1, cfg, m.banks[i].(thisTag := tag, thisNum := num));
        AllSettledBefore(kids, depth + 1, cfg, m.banks[i].(thisTag := tag, thisNum := num));
        forall k | 0 <= k < |m.banks| ensures Settled(m.banks[k]) {
          assert Settled(r.banks[k]);
        }
      case Added =>
        forall k | 0 <= k < |m.banks| ensures Settled(m.banks[k]) {
          assert Settled(r.banks[k]);
        }
      case Skipped =>
  }

  lemma {:induction false} AllSettledBefore(ts: seq<Node>, depth: int, cfg: Config, m: BankV)
    requires Settled(FillTrees(ts, depth, cfg, m))
    ensures Settled(m)
    decreases ts, 0
  {
    if ts != [] {
      AllSettledBefore(ts[1..], depth, cfg, FillTree(ts[0], depth, cfg, m));
      SettledBefore(ts[0], depth, cfg, m);
    }
  }

  lemma {:induction false} AgreeFindLeaf(ls: seq<LeafV>, ms: seq<LeafV>, tag: u16, num: u8)
    requires LeafsAgree(ls, ms)
    ensures FindLeaf(ls, tag, num) == FindLeaf(ms, tag, num)
    decreases |ls|
  {
    if ls != [] && !LeafMatches(ls[0], tag, num) {
      AgreeFindLeaf(ls[1..], ms[1..], tag, num);
    }
  }

  lemma {:induction false} AgreeFindBank(bs: seq<BankV>, ms: seq<BankV>, tag: u16, num: u8)
    requires |bs| == |ms| && forall i :: 0 <= i < |bs| ==> Agrees(bs[i], ms[i])
    ensures FindBank(bs, tag, num) == FindBank(ms, tag, num)
    decreases |bs|
  {
    if bs != [] && !BankMatches(bs[0], tag, num) {
      AgreeFindBank(bs[1..], ms[1..], tag, num);
    }
  }

  lemma AgreeRoute(v: BankV, m: BankV, tag: u16, num: u8, depth: int, cfg: Config)
    requires Agrees(v, m)
    ensures RouteOf(v.banks, tag, num, depth, cfg) == RouteOf(m.banks, tag, num, depth, cfg)
  {
    AgreeFindBank(v.banks, m.banks, tag, num);
  }

  /** The hop over a bank the tree parser accepted is its length. */
  lemma HopIsLen(w: seq<u32>, p: nat, ct: ContainerType)
    requires p <= |w| && Parse.ParseAt(w, p, ct).Ok?
    ensures p < |w| && Hop(w[p], ct) == Parse.HeadAt(w, p, ct).value.len && p + Hop(w[p], ct) <= |w|
  {
    hide Parse.ReadLeaf;
  }

  lemma {:induction false} SkipAgrees(w: seq<u32>, p: nat, end: nat, ct: ContainerType)
    requires p <= |w| && end <= |w| && Parse.ParseKids(w, p, end, ct).Ok?
    ensures SkipKids(w, p, end, ct).Ok?
    decreases |w| - p
  {
    hide Parse.ParseAt, Parse.HeadAt, Hop;
    if p < end {
      HopIsLen(w, p, ct);
      SkipAgrees(w, p + Hop(w[p], ct), end, ct);
    }
  }

  /** The two string readers agree wherever the tree reader found non-empty printable strings. */
  lemma {:induction false} StringsAgree(b: seq<u8>, limit: int, ss: seq<seq<u8>>)
    requires Parse.ReadStrings(b, limit) == Ok(ss) && RunsFit(ss)
    ensures ReadRuns(b, limit) == Ok(ss)
    decreases |b|
  {
    hide Parse.CStrLen, PrintLen, ReadRuns, RunsFit, AllPrintable;
    if limit > 0 && b != [] && b[0] != EOT {
      var k := Parse.CStrLen(b);
      RunsFitCons(ss);
      assert ss[0] == b[..k] && ss[1..] == Parse.ReadStrings(b[k + 1..], limit - (k + 1)).value;
      RunRead(b, ss[0]);
      StringsAgree(b[k + 1..], limit - (k + 1), ss[1..]);
      ReadStep(b, limit, k, ss[1..]);
      assert ss == [ss[0]] + ss[1..];
    } else {
      ReadNone(b, limit);
    }
  }

  lemma ReadNone(b: seq<u8>, limit: int)
    requires limit <= 0 || b == [] || b[0] == EOT
    ensures ReadRuns(b, limit) == Ok([])
  {
  }

  /** Content types that are neither a leaf's nor a container's leave everything as it is. */
  lemma UnknownTypes(w: seq<u32>, off: nat, bt: ContainerType, depth: int, cfg: Config, b: BankV)
    requires off <= |w| && Parse.HeadAt(w, off, bt).Ok? && off + Parse.HeadAt(w, off, bt).value.len <= |w|
    requires var code := Parse.HeadAt(w, off, bt).value.code; code >= 0x11 && code != 0x20
    ensures FillAt(w, off, bt, depth, cfg, b) == Ok(b)
  {
    hide Parse.HeadAt;
    CodeBound(w, off, bt);
  }

  lemma CodeBound(w: seq<u32>, off: nat, bt: ContainerType)
    requires off <= |w| && Parse.HeadAt(w, off, bt).Ok?
    ensures Parse.HeadAt(w, off, bt).value.code < 0x40
  {
  }

  /** On every buffer the tree parser accepts, the fast reader leaves the bank tree as routing the
      parsed tree does, in every leaf whose data the tree settles; and it comes through if the tree
      settles all. */
  lemma {:induction false} FillAgrees(w: seq<u32>, off: nat, bt: ContainerType, depth: int, cfg: Config, b: BankV,
      m: BankV)
    requires off <= |w| && Parse.ParseAt(w, off, bt).Ok? && Agrees(b, m)
    ensures var v, r := FillTree(Parse.ParseAt(w, off, bt).value, depth, cfg, m), FillAt(w, off, bt, depth, cfg, b);
            (r.Ok? ==> Agrees(r.value, v)) && (Settled(v) ==> r.Ok?)
    decreases |w| - off, 0
  {
    hide Parse.ReadLeaf, LeafItems, TreeItems, RouteOf, FindLeaf, Parse.ContainerOf, LeafCode, Agrees, Settled;
    hide FillLeaf, FillContainer, FillKids, Parse.ParseKids, PushItems;
    var h := Parse.HeadAt(w, off, bt).value;
    var base, end := off + bt.HeaderLen(), off + h.len;
    match Parse.ContainerOf(h.code)
    case None => FillLeafAgrees(w, base, end - base, h, cfg, b, m);
    case Some(ct) =>
      FillContainerAgrees(w, base, end, ct, h.tag, h.num, depth, cfg, b, m);
  }

  lemma FillLeafAgrees(w: seq<u32>, base: nat, n: nat, h: Parse.Head, cfg: Config, b: BankV, m: BankV)
    requires base + n <= |w| && h.padding < 4 && Agrees(b, m) && Parse.ReadLeaf(w, base, n, h.code, h.padding).Ok?
    ensures LeafCode(h.code)
    ensures var v := FillTree(Leaf(h.tag, h.num, Parse.ReadLeaf(w, base, n, h.code, h.padding).value), 0, cfg, m);
            var r := FillLeaf(w, base, n, h, cfg, b);
            (r.Ok? ==> Agrees(r.value, v)) && (Settled(v) ==> r.Ok?)
  {
    hide Parse.ReadLeaf, LeafItems, TreeItems, LeafCode;
    LeafAgrees(w, base, n, h.code, h.padding, h.tag, b.thisTag);
    AgreeFindLeaf(b.leafs, m.leafs, h.tag, h.num);
    var p := Parse.ReadLeaf(w, base, n, h.code, h.padding).value;
    var v := FillTree(Leaf(h.tag, h.num, p), 0, cfg, m);
    var i := FindLeaf(b.leafs, h.tag, h.num);
    if i < |b.leafs| || cfg.autoAdd {
      assert Unclear in TreeItems(p, h.tag, b.thisTag) ==> Unclear in v.leafs[i].data;
    }
  }

  lemma {:induction false} FillContainerAgrees(w: seq<u32>, base: nat, end: nat, ct: ContainerType, tag: u16,
      num: u8, depth: int, cfg: Config, b: BankV, m: BankV)
    requires base <= |w| && end <= |w| && Parse.ParseKids(w, base, end, ct).Ok? && Agrees(b, m)
    ensures var v := FillTree(Container(tag, num, ct, Parse.ParseKids(w, base, end, ct).value), depth, cfg, m);
            var r := FillContainer(w, base, end, ct, tag, num, depth, cfg, b);
            (r.Ok? ==> Agrees(r.value, v)) && (Settled(v) ==> r.Ok?)
    decreases |w| - base, 2
  {
    hide RouteOf, Parse.ParseKids, FillKids, FillTrees, LeafsAgree;
    AgreeRoute(b, m, tag, num, depth, cfg);
    var v := FillTree(Container(tag, num, ct, Parse.ParseKids(w, base, end, ct).value), depth, cfg, m);
    assert Settled(v) ==> forall i :: 0 <= i < |v.banks| ==> Settled(v.banks[i]);
    match RouteOf(b.banks, tag, num, depth, cfg)
    case Here => FillKidsAgree(w, base, end, ct, depth + 1, cfg, b.(thisTag := tag, thisNum := num),
        m.(thisTag := tag, thisNum := num));
    case Into(i) =>
      assert v.banks[i] == FillTrees(Parse.ParseKids(w, base, end, ct).value, depth + 1, cfg,
          m.banks[i].(thisTag := tag, thisNum := num));
      FillKidsAgree(w, base, end, ct, depth + 1, cfg, b.banks[i].(thisTag := tag, thisNum := num),
          m.banks[i].(thisTag := tag, thisNum := num));
    case Added =>
      var empty := BankV([tag], num, tag, num, [], []);
      AgreesRefl(empty);
      assert v.banks[|m.banks|] == FillTrees(Parse.ParseKids(w, base, end, ct).value, depth + 1, cfg, empty);
      FillKidsAgree(w, base, end, ct, depth + 1, cfg, empty, empty);
    case Skipped => SkipAgrees(w, base, end, ct);
  }

  lemma {:induction false} FillKidsAgree(w: seq<u32>, p: nat, end: nat, ct: ContainerType, depth: int, cfg: Config,
      b: BankV, m: BankV)
    requires p <= |w| && end <= |w| && Parse.ParseKids(w, p, end, ct).Ok? && Agrees(b, m)
    ensures var v := FillTrees(Parse.ParseKids(w, p, end, ct).value, depth, cfg, m);
            var r := FillKids(w, p, end, ct, depth, cfg, b);
            (r.Ok? ==> Agrees(r.value, v)) && (Settled(v) ==> r.Ok?)
    decreases |w| - p, 1
  {
    hide Parse.ParseAt, Parse.HeadAt, FillAt, FillTree, Hop, Agrees, Settled;
    if p < end {
      HopIsLen(w, p, ct);
      FillAgrees(w, p, ct, depth, cfg, b, m);
      var t := Parse.ParseAt(w, p, ct).value;
      var m' := FillTree(t, depth, cfg, m);
      var rest := Parse.ParseKids(w, p + Hop(w[p], ct), end, ct).value;
      if Settled(FillTrees(rest, depth, cfg, m')) {
        AllSettledBefore(rest, depth, cfg, m');
      }
      if FillAt(w, p, ct, depth, cfg, b).Ok? {
        FillKidsAgree(w, p + Hop(w[p], ct), end, ct, depth, cfg, FillAt(w, p, ct, depth, cfg, b).value, m');
      }
    }
  }
}

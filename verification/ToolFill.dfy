/** What EvioTool's fast reader makes of a buffer, as a function on the values of the bank tree it
    fills. */
module ToolFill {
  import opened Words
  import opened EvioTree
  import Parse = EvioParse
  import Fadc

  datatype Fault = Overrun | BadCount

  /** What leaves collect.  All four-byte types are kept as words.  `Unclear` is never read from a
      buffer; where a function on trees yields it, the tree does not say what a leaf gets. */
  datatype Item =
    | Unclear
    | Word32(word: u32)
    | Str(chars: seq<u8>)
    | Half(half: u16)
    | Char(byte: u8)
    | Long(quad: u64)
    | Pulse(data: Fadc.FadcData)

  /** A booked leaf and a booked bank, by value. */
  datatype LeafV = LeafV(tag: u16, num: u8, data: seq<Item>)

  datatype BankV = BankV(tags: seq<u16>, num: u8, thisTag: u16, thisNum: u8, leafs: seq<LeafV>, banks: seq<BankV>)

  /** `fAutoAdd`, `fChop_level`, `fMax_level` */
  datatype Config = Config(autoAdd: bool, chopLevel: int, maxLevel: int)

  // ----- lookup -----

  predicate LeafMatches(l: LeafV, tag: u16, num: u8) { l.tag == tag && (l.num == 0 || l.num == num) }

  predicate BankMatches(b: BankV, tag: u16, num: u8) { tag in b.tags && (num == 0 || b.num == 0 || b.num == num) }

  /** First matching leaf, or |leafs|. */
  function FindLeaf(leafs: seq<LeafV>, tag: u16, num: u8): (i: nat)
    ensures i <= |leafs|
    ensures i < |leafs| ==> LeafMatches(leafs[i], tag, num)
    ensures forall k :: 0 <= k < i ==> !LeafMatches(leafs[k], tag, num)
  {
    if leafs == [] || LeafMatches(leafs[0], tag, num) then 0 else 1 + FindLeaf(leafs[1..], tag, num)
  }

  /** First matching bank, or |banks|. */
  function FindBank(banks: seq<BankV>, tag: u16, num: u8): (i: nat)
    ensures i <= |banks|
    ensures i < |banks| ==> BankMatches(banks[i], tag, num)
    ensures forall k :: 0 <= k < i ==> !BankMatches(banks[k], tag, num)
  {
    if banks == [] || BankMatches(banks[0], tag, num) then 0 else 1 + FindBank(banks[1..], tag, num)
  }

  /** Where a container's content goes: into the node at hand, into one of its banks (perhaps a new
      one), or nowhere. */
  datatype Route = Here | Into(i: nat) | Added | Skipped

  function RouteOf(banks: seq<BankV>, tag: u16, num: u8, depth: int, cfg: Config): (r: Route)
    ensures r.Into? ==> r.i < |banks|
  {
    if depth < cfg.chopLevel || depth > cfg.maxLevel then Here
    else
      var i := FindBank(banks, tag, num);
      if i < |banks| then Into(i) else if cfg.autoAdd then Added else Skipped
  }

  /** Outside the levels kept, a container is pruned; else its content goes to the first bank with its tag and
      its num, where a num of 0 on either side fits any; else it is added or skipped. */
  lemma RoutedTo(banks: seq<BankV>, tag: u16, num: u8, depth: int, cfg: Config, i: nat)
    requires forall k :: 0 <= k < i && k < |banks| ==>
      tag !in banks[k].tags || (num != 0 && banks[k].num != 0 && banks[k].num != num)
    requires i < |banks| ==> tag in banks[i].tags && (num == 0 || banks[i].num == 0 || banks[i].num == num)
    ensures RouteOf(banks, tag, num, depth, cfg) ==
            if depth < cfg.chopLevel || depth > cfg.maxLevel then Here
            else if i < |banks| then Into(i) else if cfg.autoAdd then Added else Skipped
  {
    var j := FindBank(banks, tag, num);
    if i < |banks| {
      assert j == i;
    } else {
      assert j == |banks|;
    }
  }

  /** Data goes to the first leaf with its tag that is booked for num 0 or its num. */
  lemma FilledInto(leafs: seq<LeafV>, tag: u16, num: u8, i: nat)
    requires i <= |leafs|
    requires forall k :: 0 <= k < i ==> leafs[k].tag != tag || (leafs[k].num != 0 && leafs[k].num != num)
    requires i < |leafs| ==> leafs[i].tag == tag && (leafs[i].num == 0 || leafs[i].num == num)
    ensures FindLeaf(leafs, tag, num) == i
  {
    var j := FindLeaf(leafs, tag, num);
    assert j == i;
  }

  // ----- leaf data -----

  predicate Printable(c: u8) { 0x20 <= c < 0x7f }

  /** Number of printable bytes at the start of `b`. */
  function PrintLen(b: seq<u8>): (k: nat)
    ensures k <= |b|
    ensures forall i :: 0 <= i < k ==> Printable(b[i])
    ensures k < |b| ==> !Printable(b[k])
    ensures forall i :: 0 <= i < k ==> 32 <= b[i] <= 126
    ensures k < |b| ==> b[k] < 32 || b[k] > 126
  {
    if b == [] || !Printable(b[0]) then 0 else 1 + PrintLen(b[1..])
  }

  /** The string decoder: runs of printable bytes, each ended by a byte that is dropped; empty runs
      leave nothing. */
  function ReadRuns(b: seq<u8>, limit: int): Result<seq<seq<u8>>, Fault>
    decreases |b|
  {
    if limit <= 0 || b == [] || b[0] == EOT then Ok([])
    else
      var k := PrintLen(b);
      if k == |b| then Err(Overrun)
      else
        var rest :- ReadRuns(b[k + 1..], limit - (k + 1));
        Ok(if k > 0 then [b[..k]] + rest else rest)
  }

  function Items32(ws: seq<u32>): (r: seq<Item>)
    ensures |r| == |ws|
  {
    seq(|ws|, i requires 0 <= i < |ws| => Word32(ws[i]))
  }

  function ItemsStr(ss: seq<seq<u8>>): (r: seq<Item>)
    ensures |r| == |ss|
  {
    seq(|ss|, i requires 0 <= i < |ss| => Str(ss[i]))
  }

  function ItemsHalf(hs: seq<u16>): (r: seq<Item>)
    ensures |r| == |hs|
  {
    seq(|hs|, i requires 0 <= i < |hs| => Half(hs[i]))
  }

  function ItemsChar(bs: seq<u8>): (r: seq<Item>)
    ensures |r| == |bs|
  {
    seq(|bs|, i requires 0 <= i < |bs| => Char(bs[i]))
  }

  function ItemsLong(qs: seq<u64>): (r: seq<Item>)
    ensures |r| == |qs|
  {
    seq(|qs|, i requires 0 <= i < |qs| => Long(qs[i]))
  }

  function ItemsPulse(ds: seq<Fadc.FadcData>): (r: seq<Item>)
    ensures |r| == |ds|
  {
    seq(|ds|, i requires 0 <= i < |ds| => Pulse(ds[i]))
  }

  /** The composite leaf: a tagsegment with a format that is not looked at, then the data bank. */
  function FadcItems(w: seq<u32>, base: nat, tag: u16, crate: u16): Result<seq<Item>, Fault>
    requires base <= |w|
  {
    if base == |w| then Err(Overrun)
    else
      var formatLen := w[base] % 0x1_0000;
      if base + 3 + formatLen > |w| then Err(Overrun)
      else
        var dataLen := Fadc.Signed(w[base + 1 + formatLen]) - 1;
        var start := base + 3 + formatLen;
        match Fadc.Records(Bytes(w, 4 * start, 4 * (|w| - start)), 0, dataLen * 4 - 4, tag, crate % 0x100)
        case Ok(ds) => Ok(ItemsPulse(ds))
        case Err(BadCount) => Err(BadCount)
        case Err(Overrun) => Err(Overrun)
  }

  /** Content types the leaf switch knows. */
  predicate LeafCode(code: u8) { code <= 0xb || code == 0xf }

  /** The items a leaf of type `code` contributes, read from the `n` words at `base`.  Counts are the
      ones the source passes: words, also for types of another size. */
  function LeafItems(w: seq<u32>, base: nat, n: nat, code: u8, padding: nat, tag: u16, crate: u16)
    : Result<seq<Item>, Fault>
    requires base + n <= |w| && LeafCode(code)
  {
    match code
    case 0x3 =>
      var ss :- ReadRuns(Bytes(w, 4 * base, 4 * (|w| - base)), 4 * n - padding);
      Ok(ItemsStr(ss))
    case 0x4 => Ok(ItemsHalf(Halves(w, base, n)))
    case 0x5 => Ok(ItemsHalf(Halves(w, base, n)))
    case 0x6 => Ok(ItemsChar(Bytes(w, 4 * base, n)))
    case 0x7 => Ok(ItemsChar(Bytes(w, 4 * base, n)))
    case 0x8 => LongItems(w, base, 2 * n - padding / 2)
    case 0x9 => LongItems(w, base, n)
    case 0xa => LongItems(w, base, n)
    case 0xf => FadcItems(w, base, tag, crate)
    case _ => Ok(Items32(w[base..][..n]))
  }

  function LongItems(w: seq<u32>, base: nat, n: int): Result<seq<Item>, Fault>
    requires base <= |w|
  {
    if n < 0 then Err(BadCount) else if base + 2 * n > |w| then Err(Overrun) else Ok(ItemsLong(Quads(w, base, n)))
  }

  // ----- filling -----

  function PushItems(b: BankV, i: nat, items: seq<Item>): BankV
    requires i < |b.leafs|
  {
    b.(leafs := b.leafs[i := b.leafs[i].(data := b.leafs[i].data + items)])
  }

  /** `AddOrFillLeaf`: data goes to the first matching leaf, to a new one, or is not looked at. */
  function FillLeaf(w: seq<u32>, base: nat, n: nat, h: Parse.Head, cfg: Config, b: BankV): Result<BankV, Fault>
    requires base + n <= |w| && LeafCode(h.code)
  {
    var i := FindLeaf(b.leafs, h.tag, h.num);
    if i < |b.leafs| then
      var items :- LeafItems(w, base, n, h.code, h.padding, h.tag, b.thisTag);
      Ok(PushItems(b, i, items))
    else if cfg.autoAdd then
      var items :- LeafItems(w, base, n, h.code, h.padding, h.tag, b.thisTag);
      Ok(b.(leafs := b.leafs + [LeafV(h.tag, h.num, items)]))
    else Ok(b)
  }

  /** `ParseBank` on the bank at `off`.  Unknown content types leave everything as it is. */
  function FillAt(w: seq<u32>, off: nat, bt: ContainerType, depth: int, cfg: Config, b: BankV): Result<BankV, Fault>
    requires off <= |w|
    decreases |w| - off, 0
  {
    match Parse.HeadAt(w, off, bt)
    case Err(_) => Err(Overrun)
    case Ok(h) =>
      var base, end := off + bt.HeaderLen(), off + h.len;
      if end > |w| then Err(Overrun)
      else
        match Parse.ContainerOf(h.code)
        case Some(ct) => FillContainer(w, base, end, ct, h.tag, h.num, depth, cfg, b)
        case None =>
          if !LeafCode(h.code) then Ok(b)
          else if end < base then Err(BadCount)
          else FillLeaf(w, base, end - base, h, cfg, b)
  }

  function FillContainer(w: seq<u32>, base: nat, end: nat, ct: ContainerType, tag: u16, num: u8, depth: int,
                         cfg: Config, b: BankV)
    : Result<BankV, Fault>
    requires base <= |w| && end <= |w|
    decreases |w| - base, 2
  {
    match RouteOf(b.banks, tag, num, depth, cfg)
    case Here => FillKids(w, base, end, ct, depth + 1, cfg, b.(thisTag := tag, thisNum := num))
    case Into(i) =>
      var kid :- FillKids(w, base, end, ct, depth + 1, cfg, b.banks[i].(thisTag := tag, thisNum := num));
      Ok(b.(banks := b.banks[i := kid]))
    case Added =>
      var kid :- FillKids(w, base, end, ct, depth + 1, cfg, BankV([tag], num, tag, num, [], []));
      Ok(b.(banks := b.banks + [kid]))
    case Skipped =>
      var _ :- SkipKids(w, base, end, ct);
      Ok(b)
  }

  /** Words from a bank's first to the next bank's. */
  function Hop(word: u32, ct: ContainerType): (n: nat)
    ensures n >= 1
  {
    1 + if ct.IsBank() then word else word % 0x1_0000
  }

  function FillKids(w: seq<u32>, p: nat, end: nat, ct: ContainerType, depth: int, cfg: Config, b: BankV)
    : Result<BankV, Fault>
    requires p <= |w| && end <= |w|
    decreases |w| - p, 1
  {
    if p >= end then Ok(b)
    else
      var b' :- FillAt(w, p, ct, depth, cfg, b);
      if p + Hop(w[p], ct) > |w| then Err(Overrun)
      else FillKids(w, p + Hop(w[p], ct), end, ct, depth, cfg, b')
  }

  /** The loop over the banks of a container nobody booked. */
  function SkipKids(w: seq<u32>, p: nat, end: nat, ct: ContainerType): Result<(), Fault>
    requires p <= |w| && end <= |w|
    decreases |w| - p
  {
    if p >= end then Ok(())
    else if p + Hop(w[p], ct) > |w| then Err(Overrun)
    else SkipKids(w, p + Hop(w[p], ct), end, ct)
  }

  // ----- whole events -----

  /** `a & b` */
  function And(a: nat, b: nat): nat {
    if a == 0 || b == 0 then 0 else 2 * And(a / 2, b / 2) + if a % 2 == 1 && b % 2 == 1 then 1 else 0
  }

  /** `Bank::CheckTag`: one mask for all tags, or a mask for each; inconsistent bookings pass. */
  predicate CheckTag(tags: seq<u16>, masks: seq<u16>, tag: u16) {
    if tags != [] && |masks| == 1 then And(tag, masks[0]) in tags
    else if |tags| == |masks| then exists i :: 0 <= i < |tags| && And(tag, masks[i]) == tags[i]
    else true
  }

  /** Whether an event is taken apart at all; with chopping on, the top bank must be a bank of banks
      and its tag must pass. */
  datatype Verdict = Taken | WrongType | OtherTag

  function Judge(header: u32, masks: seq<u16>, cfg: Config, tags: seq<u16>): Verdict {
    if cfg.chopLevel > 0 && header / 0x100 % 0x40 != 0x10 && header / 0x100 % 0x40 != 0xe then WrongType
    else if cfg.chopLevel > 0 && !CheckTag(tags, masks, header / 0x1_0000) then OtherTag
    else Taken
  }

  /** `ParseEvioBuff`, whose target is the reader itself. */
  function FillEvent(w: seq<u32>, masks: seq<u16>, cfg: Config, b: BankV): Result<(Verdict, BankV), Fault> {
    if |w| < 2 then Err(Overrun)
    else
      var b' := b.(thisTag := w[1] / 0x1_0000, thisNum := w[1] % 0x100);
      var verdict := Judge(w[1], masks, cfg, b.tags);
      if verdict != Taken then Ok((verdict, b'))
      else
        var v :- FillAt(w, 0, Bank10, 0, cfg, b');
        Ok((Taken, v))
  }
}

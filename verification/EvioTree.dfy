/** Evio trees as values, the words the writer lays them out in, and their sizes. */
module EvioTree {
  import opened Words

  const EOT: u8 := 4

  /** Content types of container nodes.  Two codes mean a bank, two a segment, two a tagsegment. */
  datatype ContainerType = Bank | Bank10 | Segment | Segment20 | TagSegment | TagSegment40 {
    function Code(): u8 {
      match this
      case Bank => 0xe
      case Bank10 => 0x10
      case Segment => 0xd
      case Segment20 => 0x20
      case TagSegment => 0xc
      case TagSegment40 => 0x40
    }

    /** Children of banks carry two header words; all others carry one. */
    function HeaderLen(): (n: nat)
      ensures 1 <= n <= 2
    {
      if this.Bank? || this.Bank10? then 2 else 1
    }

    predicate IsBank() { Bank? || Bank10? }

    predicate IsSegment() { Segment? || Segment20? }

    /** `evIsContainer`: 0x40 is not among its cases. */
    predicate IsContainer() { !TagSegment40? }
  }

  datatype Kind32 = Unknown32 | UInt32 | Float32 | Int32
  datatype Kind16 = Int16 | UInt16
  datatype Kind8 = Int8 | UInt8
  datatype Kind64 = Double | Int64 | UInt64

  /** Beyond this many bytes a format string's length in words overflows the writer's 16-bit variable. */
  const MAX_FORMAT: nat := 262139

  /** Leaf data; floating-point values are kept as bit patterns. */
  datatype Payload =
    | Words32(kind32: Kind32, words: seq<u32>)
    | Text(strings: seq<seq<u8>>)
    | Words16(kind16: Kind16, halves: seq<u16>)
    | Words8(kind8: Kind8, bytes: seq<u8>)
    | Words64(kind64: Kind64, quads: seq<u64>)
    | Composite(formatTag: u16, format: seq<u8>, dataTag: u16, dataNum: u8, data: seq<u32>)
  {
    function Code(): u8 {
      match this
      case Words32(k, _) => (match k case Unknown32 => 0x0 case UInt32 => 0x1 case Float32 => 0x2 case Int32 => 0xb)
      case Text(_) => 0x3
      case Words16(k, _) => (match k case Int16 => 0x4 case UInt16 => 0x5)
      case Words8(k, _) => (match k case Int8 => 0x6 case UInt8 => 0x7)
      case Words64(k, _) => (match k case Double => 0x8 case Int64 => 0x9 case UInt64 => 0xa)
      case Composite(_, _, _, _, _) => 0xf
    }

    predicate FormatFits() { Composite? ==> |format| <= MAX_FORMAT }

    /** Bytes of padding that the writer appends and records. */
    function Padding(): (p: nat)
      ensures p < 4
    {
      match this
      case Words16(_, hs) => if |hs| % 2 != 0 then 2 else 0
      case Words8(_, bs) => PadCount(|bs|)
      case _ => 0
    }
  }

  datatype Node =
    | Leaf(tag: u16, num: u8, payload: Payload)
    | Container(tag: u16, num: u8, ctype: ContainerType, kids: seq<Node>)
  {
    function Code(): u8 {
      match this
      case Leaf(_, _, p) => p.Code()
      case Container(_, _, ct, _) => ct.Code()
    }
  }

  // ----- payload layout -----

  /** Strings laid end to end, each closed by NUL. */
  function Join(ss: seq<seq<u8>>): seq<u8> {
    if ss == [] then [] else ss[0] + [0] + Join(ss[1..])
  }

  function EvenHalves(hs: seq<u16>): (r: seq<u16>)
    ensures |r| % 2 == 0 && |r| / 2 == (|hs| + 1) / 2
  {
    if |hs| % 2 == 0 then hs else hs + [0]
  }

  function FormatWords(f: seq<u8>): (n: nat)
    ensures |f| <= MAX_FORMAT ==> n < 0x1_0000
  {
    (|f| + 1 + 3) / 4
  }

  function PayloadWords(p: Payload): seq<u32>
    requires PayloadLen(p) < MAX_WORDS && p.FormatFits()
  {
    match p
    case Words32(_, ws) => ws
    case Text(ss) => PackBytes(Padded(Join(ss), EOT))
    case Words16(_, hs) => PackHalves(EvenHalves(hs))
    case Words8(_, bs) => PackBytes(Padded(bs, 0))
    case Words64(_, qs) => PackQuads(qs)
    case Composite(ft, f, dt, dn, ws) =>
      [ft % 0x1000 * 0x10_0000 + 0x3_0000 + FormatWords(f)] +
      PackBytes(Padded(f + [0], EOT)) +
      [|ws| + 1, dt * 0x1_0000 + 0x100 + dn] + ws
  }

  function PayloadLen(p: Payload): nat {
    match p
    case Words32(_, ws) => |ws|
    case Text(ss) => (|Join(ss)| + 3) / 4
    case Words16(_, hs) => (|hs| + 1) / 2
    case Words8(_, bs) => (|bs| + 3) / 4
    case Words64(_, qs) => |qs| * 2
    case Composite(_, f, _, _, ws) => 3 + FormatWords(f) + |ws|
  }

  lemma PayloadWordsLen(p: Payload)
    requires PayloadLen(p) < MAX_WORDS && p.FormatFits()
    ensures |PayloadWords(p)| == PayloadLen(p)
  {
  }

  // ----- headers -----

  /** `t | b` for `b` a power of two or zero. */
  function OrBit(t: nat, b: nat): nat {
    if b == 0 || (t / b) % 2 == 1 then t else t + b
  }

  lemma OrBitBound(t: nat, code: u8)
    requires t < 0x1000 && code / 0x10 in {0, 1, 2, 4}
    ensures OrBit(t, code / 0x10) < 0x1000
  {
    var b := code / 0x10;
    if b == 1 && t % 2 == 0 {
      assert t + 1 < 0x1000;
    } else if b == 2 && (t / 2) % 2 == 0 {
      assert t == t / 4 * 4 + t % 4;
    } else if b == 4 && (t / 4) % 2 == 0 {
      assert t == t / 8 * 8 + t % 8;
    }
  }

  /** The finished header of a node of `len` words whose parent has content type `bt`.
      Fields of a bank or segment header do not overlap for codes below 0x40, so `|` is `+` there;
      in a tagsegment a code above 0xf runs into the tag.  Padding reaches bank headers only: for
      segments and tagsegments the source compares (`!=`) where it should assign (`|=`). */
  function Header(bt: ContainerType, tag: u16, num: u8, code: u8, len: nat, padding: nat): (h: seq<u32>)
    requires 1 <= len <= if bt.IsBank() then MAX_WORDS else 0x1_0000
    requires code < 0x40 && padding < 4
    requires code / 0x10 in {0, 1, 2}
    ensures |h| == bt.HeaderLen()
  {
    if bt.IsBank() then
      [len - 1, tag * 0x1_0000 + padding * 0x4000 + code * 0x100 + num]
    else if bt.IsSegment() then
      [tag % 0x100 * 0x100_0000 + code * 0x1_0000 + (len - 1)]
    else
      OrBitBound(tag % 0x1000, code);
      [OrBit(tag % 0x1000, code / 0x10) * 0x10_0000 + code % 0x10 * 0x1_0000 + (len - 1)]
  }

  // ----- sizes -----

  /** Words taken by a node whose parent has content type `bt`. */
  function Len(t: Node, bt: ContainerType): (n: nat)
    ensures n >= bt.HeaderLen()
    decreases t, 1
  {
    bt.HeaderLen() + match t
                     case Leaf(_, _, p) => PayloadLen(p)
                     case Container(_, _, ct, kids) => LenKids(kids, ct)
  }

  function LenKids(kids: seq<Node>, ct: ContainerType): nat
    decreases kids, 0
  {
    if kids == [] then 0 else Len(kids[0], ct) + LenKids(kids[1..], ct)
  }

  /** Nodes the writer has a representation for: 0x40 is not a container to it, the length of
      anything but a bank has 16 bits, and so has that of a format string. */
  predicate Writable(t: Node, bt: ContainerType)
    decreases t, 1
  {
    Len(t, bt) <= (if bt.IsBank() then MAX_WORDS else 0x1_0000) &&
    match t
    case Leaf(_, _, p) => p.FormatFits()
    case Container(_, _, ct, kids) => ct.IsContainer() && WritableKids(kids, ct)
  }

  predicate WritableKids(kids: seq<Node>, ct: ContainerType)
    decreases kids, 0
  {
    kids == [] || (Writable(kids[0], ct) && WritableKids(kids[1..], ct))
  }

  /** The words that a node's serialization consists of. */
  function Ser(t: Node, bt: ContainerType): (ws: seq<u32>)
    requires Writable(t, bt)
    ensures |ws| == Len(t, bt)
    decreases t, 1
  {
    match t
    case Leaf(tag, num, p) =>
      PayloadWordsLen(p);
      Header(bt, tag, num, p.Code(), Len(t, bt), p.Padding()) + PayloadWords(p)
    case Container(tag, num, ct, kids) =>
      Header(bt, tag, num, ct.Code(), Len(t, bt), 0) + SerKids(kids, ct)
  }

  function SerKids(kids: seq<Node>, ct: ContainerType): (ws: seq<u32>)
    requires WritableKids(kids, ct)
    ensures |ws| == LenKids(kids, ct)
    decreases kids, 0
  {
    if kids == [] then [] else Ser(kids[0], ct) + SerKids(kids[1..], ct)
  }

  // ----- which trees survive a write and a read -----

  predicate NulFree(s: seq<u8>) { forall i :: 0 <= i < |s| ==> s[i] != 0 }

  predicate TextFits(ss: seq<seq<u8>>) {
    forall i :: 0 <= i < |ss| ==> NulFree(ss[i]) && (ss[i] == [] || ss[i][0] != EOT)
  }

  /** Tag, num and content type fit the header that the parent dictates. */
  predicate HeaderFits(bt: ContainerType, tag: u16, num: u8, code: u8) {
    bt.IsBank() ||
    (num == 0 && if bt.IsSegment() then tag < 0x100 else tag < 0x1000 && code < 0x10)
  }

  /** Padding can be recorded; strings contain no NUL and do not begin with EOT; a composite's
      format tag has 12 bits. */
  predicate PayloadFits(bt: ContainerType, p: Payload) {
    match p
    case Words32(_, _) => true
    case Words64(_, _) => true
    case Words16(_, hs) => bt.IsBank() || |hs| % 2 == 0
    case Words8(_, bs) => bt.IsBank() || |bs| % 4 == 0
    case Text(ss) => TextFits(ss)
    case Composite(ft, f, _, _, _) => ft < 0x1000 && NulFree(f)
  }

  predicate Faithful(t: Node, bt: ContainerType)
    decreases t, 1
  {
    HeaderFits(bt, t.tag, t.num, t.Code()) &&
    match t
    case Leaf(_, _, p) => PayloadFits(bt, p)
    case Container(_, _, ct, kids) => FaithfulKids(kids, ct)
  }

  predicate FaithfulKids(kids: seq<Node>, ct: ContainerType)
    decreases kids, 0
  {
    kids == [] || (Faithful(kids[0], ct) && FaithfulKids(kids[1..], ct))
  }
}

/** The format in plain numbers: where each bit of a header and each byte of a payload stands, and that
    the parser reads any words laid out so. */
module EvioFormat {
  import opened Words
  import opened EvioTree
  import opened EvioParse
  import RoundTrip = EvioRoundTrip

  /** Byte `i` of a word buffer in memory, lowest byte first. */
  function Octet(ws: seq<u32>, i: nat): int
    requires i < 4 * |ws|
  {
    match i % 4
    case 0 => ws[i / 4] % 256
    case 1 => ws[i / 4] / 256 % 256
    case 2 => ws[i / 4] / 65536 % 256
    case _ => ws[i / 4] / 16777216
  }

  lemma OctetIsByte(ws: seq<u32>, i: nat)
    requires i < 4 * |ws|
    ensures Octet(ws, i) == ByteAt(ws, i)
  {
  }

  // ----- headers -----

  /** A bank's header: its length less one; then tag, padding, content type and num from the top. */
  lemma BankHeader(t: Node)
    requires Writable(t, Bank)
    ensures var w := Ser(t, Bank);
            && |w| >= 2 && w[0] == |w| - 1
            && w[1] / 65536 == t.tag && w[1] % 256 == t.num && w[1] / 256 % 64 == TypeCode(t)
            && w[1] / 16384 % 4 == PaddingOf(t)
  {
    hide PayloadWords, SerKids, LenKids, PayloadLen;
    CodesAre(t);
    RoundTrip.BankFields(t.tag, PaddingOf(t), TypeCode(t), t.num);
  }

  /** A segment's: tag, two bits of padding that stay zero, content type, and the length less one. */
  lemma SegmentHeader(t: Node)
    requires Writable(t, Segment)
    ensures var w := Ser(t, Segment);
            && |w| >= 1 && w[0] % 65536 == |w| - 1 && w[0] / 16777216 == t.tag % 256
            && w[0] / 4194304 % 4 == 0 && w[0] / 65536 % 64 == TypeCode(t)
  {
    hide PayloadWords, SerKids, LenKids, PayloadLen;
    CodesAre(t);
    RoundTrip.SegmentFields(t.tag % 256, TypeCode(t), Len(t, Segment) - 1);
  }

  /** A tagsegment's: twelve bits of tag, four of content type, and the length less one. */
  lemma TagSegmentHeader(t: Node)
    requires Writable(t, TagSegment)
    ensures var w := Ser(t, TagSegment);
            && |w| >= 1 && w[0] % 65536 == |w| - 1 && w[0] / 65536 % 16 == TypeCode(t) % 16
            && (TypeCode(t) < 16 ==> w[0] / 1048576 == t.tag % 4096)
            && (TypeCode(t) == 16 ==> w[0] / 1048576 == t.tag % 4096 / 2 * 2 + 1)
            && (TypeCode(t) == 32 ==> w[0] / 1048576 == t.tag % 4096 / 4 * 4 + 2 + t.tag % 2)
  {
    hide PayloadWords, SerKids, LenKids, PayloadLen, Header, TypeCode;
    CodesAre(t);
    CodeHigh(t);
    TagSegmentWord(t.tag, t.num, TypeCode(t), Len(t, TagSegment), PaddingOf(t));
  }

  lemma CodeHigh(t: Node)
    requires Writable(t, TagSegment)
    ensures TypeCode(t) < 64 && TypeCode(t) / 16 in {0, 1, 2}
  {
    hide LenKids, PayloadLen;
  }

  lemma TagSegmentWord(tag: u16, num: u8, code: u8, len: nat, padding: nat)
    requires 1 <= len <= 65536 && code < 64 && padding < 4 && code / 16 in {0, 1, 2}
    ensures var w := Header(TagSegment, tag, num, code, len, padding)[0];
            && w % 65536 == len - 1 && w / 65536 % 16 == code % 16
            && (code < 16 ==> w / 1048576 == tag % 4096)
            && (code == 16 ==> w / 1048576 == tag % 4096 / 2 * 2 + 1)
            && (code == 32 ==> w / 1048576 == tag % 4096 / 4 * 4 + 2 + tag % 2)
  {
    hide OrBit;
    OrBitBound(tag % 4096, code);
    OrBits(tag % 4096);
    RoundTrip.TagSegmentFields(OrBit(tag % 4096, code / 16), code % 16, len - 1);
    assert tag % 4096 % 2 == tag % 2;
  }

  lemma OrBits(t: nat)
    ensures OrBit(t, 0) == t && OrBit(t, 1) == t / 2 * 2 + 1 && OrBit(t, 2) == t / 4 * 4 + 2 + t % 2
  {
    OrTwo(t);
  }

  lemma OrTwo(t: nat)
    ensures OrBit(t, 2) == t / 4 * 4 + 2 + t % 2
  {
    var q, r := t / 4, t % 4;
    assert t == 4 * q + r && t / 2 == 2 * q + r / 2;
    if r < 2 {
      assert (t / 2) % 2 == 0 && t % 2 == r;
    } else {
      assert (t / 2) % 2 == 1 && t % 2 == r - 2;
    }
  }

  /** The content types. */
  function TypeCode(t: Node): u8 {
    match t
    case Leaf(_, _, Words32(Unknown32, _)) => 0x0
    case Leaf(_, _, Words32(UInt32, _)) => 0x1
    case Leaf(_, _, Words32(Float32, _)) => 0x2
    case Leaf(_, _, Words32(Int32, _)) => 0xb
    case Leaf(_, _, Text(_)) => 0x3
    case Leaf(_, _, Words16(Int16, _)) => 0x4
    case Leaf(_, _, Words16(UInt16, _)) => 0x5
    case Leaf(_, _, Words8(Int8, _)) => 0x6
    case Leaf(_, _, Words8(UInt8, _)) => 0x7
    case Leaf(_, _, Words64(Double, _)) => 0x8
    case Leaf(_, _, Words64(Int64, _)) => 0x9
    case Leaf(_, _, Words64(UInt64, _)) => 0xa
    case Leaf(_, _, Composite(_, _, _, _, _)) => 0xf
    case Container(_, _, Bank, _) => 0xe
    case Container(_, _, Bank10, _) => 0x10
    case Container(_, _, Segment, _) => 0xd
    case Container(_, _, Segment20, _) => 0x20
    case Container(_, _, TagSegment, _) => 0xc
    case Container(_, _, TagSegment40, _) => 0x40
  }

  /** Bytes of padding. */
  function PaddingOf(t: Node): nat {
    match t
    case Leaf(_, _, Words16(_, hs)) => |hs| % 2 * 2
    case Leaf(_, _, Words8(_, bs)) => (4 - |bs| % 4) % 4
    case _ => 0
  }

  lemma CodesAre(t: Node)
    ensures t.Code() == TypeCode(t) && (t.Leaf? ==> t.payload.Padding() == PaddingOf(t)) && PaddingOf(t) < 4
  {
  }

  /** Any header word built from its fields is read back field by field; so the padding of a segment is,
      if somebody has recorded it. */
  lemma {:induction false} HeadersRead(w: seq<u32>, off: nat, tag: nat, padding: nat, code: nat, num: nat, len: nat)
    requires off < |w| && padding < 4
    ensures off + 1 < |w| && tag < 65536 && code < 64 && num < 256 &&
            w[off + 1] == tag * 65536 + padding * 16384 + code * 256 + num ==>
              HeadAt(w, off, Bank) == Ok(Head(w[off] as int + 1, tag, num, code, padding)) == HeadAt(w, off, Bank10)
    ensures tag < 256 && code < 64 && len < 65536 &&
            w[off] == tag * 16777216 + padding * 4194304 + code * 65536 + len ==>
              HeadAt(w, off, Segment) == Ok(Head(len + 1, tag, 0, code, padding)) == HeadAt(w, off, Segment20)
    ensures tag < 4096 && code < 16 && len < 65536 && w[off] == tag * 1048576 + code * 65536 + len ==>
              HeadAt(w, off, TagSegment) == Ok(Head(len + 1, tag, 0, code, 0)) == HeadAt(w, off, TagSegment40)
  {
    if off + 1 < |w| && tag < 65536 && code < 64 && num < 256
       && w[off + 1] == tag * 65536 + padding * 16384 + code * 256 + num {
      RoundTrip.BankFields(tag, padding, code, num);
    }
    if tag < 256 && code < 64 && len < 65536 && w[off] == tag * 16777216 + padding * 4194304 + code * 65536 + len {
      PaddedSegment(tag, padding, code, len);
    }
    if tag < 4096 && code < 16 && len < 65536 && w[off] == tag * 1048576 + code * 65536 + len {
      RoundTrip.TagSegmentFields(tag, code, len);
    }
  }

  lemma PaddedSegment(tag: nat, padding: nat, code: nat, len: nat)
    requires tag < 256 && padding < 4 && code < 64 && len < 65536
    ensures var w := tag * 16777216 + padding * 4194304 + code * 65536 + len;
            w / 16777216 == tag && w / 4194304 % 4 == padding && w / 65536 % 64 == code && w % 65536 == len
  {
    var w := tag * 16777216 + padding * 4194304 + code * 65536 + len;
    assert w / 65536 == tag * 256 + padding * 64 + code;
    assert w / 4194304 == tag * 4 + padding;
  }

  // ----- payloads, byte by byte -----

  /** Four- and eight-byte data, the lower word first. */
  lemma WordData(p: Payload, i: nat)
    requires (p.Words32? || p.Words64?) && PayloadLen(p) < MAX_WORDS
    ensures p.Words32? ==> PayloadWords(p) == p.words
    ensures p.Words64? ==> |PayloadWords(p)| == 2 * |p.quads|
    ensures p.Words64? && i < |p.quads| ==>
              PayloadWords(p)[2 * i] == p.quads[i] % 4294967296 && PayloadWords(p)[2 * i + 1] == p.quads[i] / 4294967296
  {
    PayloadWordsLen(p);
  }

  /** Two-byte data, the lower half first; what fills up the last word is zero. */
  lemma HalfData(p: Payload, i: nat)
    requires p.Words16? && PayloadLen(p) < MAX_WORDS
    ensures |PayloadWords(p)| == (|p.halves| + 1) / 2
    ensures i < |PayloadWords(p)| ==>
              PayloadWords(p)[i] == p.halves[2 * i] as int
                                    + 65536 * if 2 * i + 1 < |p.halves| then p.halves[2 * i + 1] as int else 0
  {
    hide PackHalves;
    PayloadWordsLen(p);
    PackedHalves(EvenHalves(p.halves), i);
  }

  lemma PackedHalves(hs: seq<u16>, i: nat)
    requires |hs| % 2 == 0
    ensures i < |hs| / 2 ==> PackHalves(hs)[i] == hs[2 * i] as int + 65536 * hs[2 * i + 1] as int
  {
  }

  /** One-byte data, the lowest byte first; what fills up the last word is zero. */
  lemma ByteData(p: Payload, i: nat)
    requires p.Words8? && PayloadLen(p) < MAX_WORDS
    ensures |PayloadWords(p)| == (|p.bytes| + 3) / 4
    ensures i < 4 * |PayloadWords(p)| ==> Octet(PayloadWords(p), i) == if i < |p.bytes| then p.bytes[i] else 0
  {
    hide PackBytes, ByteAt, Octet;
    PayloadWordsLen(p);
    if i < 4 * |PayloadWords(p)| {
      OctetIsByte(PayloadWords(p), i);
      PackedByte(Padded(p.bytes, 0), i);
    }
  }

  /** Text: the bytes of each string and a zero behind it, then nothing but fours to the end of the word. */
  lemma TextBytes(ss: seq<seq<u8>>, i: nat)
    requires PayloadLen(Text(ss)) < MAX_WORDS && i < 4 * |PayloadWords(Text(ss))|
    ensures |Join(ss)| <= 4 * |PayloadWords(Text(ss))| < |Join(ss)| + 4
    ensures Octet(PayloadWords(Text(ss)), i) == if i < |Join(ss)| then Join(ss)[i] else 4
  {
    OctetIsByte(PayloadWords(Text(ss)), i);
    PackedByte(Padded(Join(ss), EOT), i);
  }

  /** Where the strings and their zeros stand in the joined bytes. */
  lemma {:induction false} JoinedBytes(ss: seq<seq<u8>>, k: nat)
    requires k < |ss|
    ensures var at := |Join(ss[..k])|;
            at + |ss[k]| < |Join(ss)| && Join(ss)[at..at + |ss[k]|] == ss[k] && Join(ss)[at + |ss[k]|] == 0
    ensures |Join(ss[..k + 1])| == |Join(ss[..k])| + |ss[k]| + 1 && (k == 0 ==> |Join(ss[..k])| == 0)
    ensures k == |ss| - 1 ==> |Join(ss)| == |Join(ss[..k])| + |ss[k]| + 1
    decreases k
  {
    if k > 0 {
      JoinedBytes(ss[1..], k - 1);
      assert ss[..k] == [ss[0]] + ss[1..][..k - 1] && ss[..k + 1] == [ss[0]] + ss[1..][..k];
    } else {
      assert ss[..1] == [ss[0]];
      assert Join(ss[..1]) == ss[0] + [0] + Join(ss[..1][1..]);
    }
  }

  /** The text "ab" under tag 7 and num 0. */
  lemma TextAb()
    ensures Writable(Leaf(7, 0, Text([[0x61, 0x62]])), Bank)
    ensures Ser(Leaf(7, 0, Text([[0x61, 0x62]])), Bank) == [2, 0x0007_0300, 0x0400_6261]
  {
    var ss: seq<seq<u8>> := [[0x61, 0x62]];
    var t := Leaf(7, 0, Text(ss));
    assert ss[1..] == [] && Join(ss) == [0x61, 0x62, 0];
    var w := PayloadWords(Text(ss));
    TextBytes(ss, 0);
    TextBytes(ss, 1);
    TextBytes(ss, 2);
    TextBytes(ss, 3);
    assert |w| == 1;
    assert w[0] == 0x0400_6261;
  }

  /** A composite leaf: a tagsegment of characters with the format, a zero behind it and fours to the
      end of the word; then a bank of unsigned words. */
  lemma CompositeBytes(p: Payload, i: nat)
    requires p.Composite? && PayloadLen(p) < MAX_WORDS && p.FormatFits()
    ensures var w, n := PayloadWords(p), (|p.format| + 4) / 4;
            && |w| == 3 + n + |p.data|
            && w[0] / 1048576 == p.formatTag % 4096 && w[0] / 65536 % 16 == 3 && w[0] % 65536 == n
            && w[n + 1] == |p.data| + 1
            && w[n + 2] / 65536 == p.dataTag && w[n + 2] / 256 % 256 == 1 && w[n + 2] % 256 == p.dataNum
            && w[n + 3..] == p.data
            && (i < 4 * n ==>
                  Octet(w[1..], i) == if i < |p.format| then p.format[i] else if i == |p.format| then 0 else 4)
  {
    hide PackBytes, Padded, Octet;
    var w, n := PayloadWords(p), (|p.format| + 4) / 4;
    PayloadWordsLen(p);
    var fs := Padded(p.format + [0], EOT);
    RoundTrip.TagSegmentFields(p.formatTag % 4096, 3, n);
    DataWord(p.dataTag, p.dataNum);
    assert w[1..][..n] == PackBytes(fs);
    if i < 4 * n {
      FormatBytes(w[1..], p.format, i);
    }
  }

  lemma DataWord(tag: u16, num: u8)
    ensures var w := tag * 65536 + 256 + num; w / 65536 == tag && w / 256 % 256 == 1 && w % 256 == num
  {
    LowByte(tag * 256 + 1, num);
    LowByte(tag, 1);
    assert tag * 65536 + 256 + num == (tag * 256 + 1) * 256 + num;
  }

  lemma LowByte(high: nat, low: u8)
    ensures (high * 256 + low) / 256 == high && (high * 256 + low) % 256 == low
    ensures (high * 256 + low) / 65536 == high / 256
  {
  }

  lemma FormatBytes(w: seq<u32>, f: seq<u8>, i: nat)
    requires i < 4 * ((|f| + 4) / 4) && (|f| + 4) / 4 <= |w| && w[..(|f| + 4) / 4] == PackBytes(Padded(f + [0], EOT))
    ensures Octet(w, i) == if i < |f| then f[i] else if i == |f| then 0 else 4
  {
    hide PackBytes, ByteOf;
    var fs := Padded(f + [0], EOT);
    OctetIsByte(w, i);
    PackedByte(fs, i);
    assert w[i / 4] == PackBytes(fs)[i / 4];
  }

  /** A format string's length in words fits the writer's 16-bit variable exactly up to `MAX_FORMAT`. */
  lemma FormatLimit(f: seq<u8>)
    ensures (|f| + 1 + 3) / 4 < 65536 <==> |f| <= MAX_FORMAT
  {
  }

  // ----- words that anybody laid out are read as they should be -----

  /** The bytes of text standing in `w`, whoever put them there. */
  predicate TextAt(w: seq<u32>, base: nat, n: nat, ss: seq<seq<u8>>)
    requires base + n <= |w|
  {
    && |Join(ss)| <= 4 * n < |Join(ss)| + 4
    && forall j :: 4 * base <= j < 4 * (base + n) ==>
         Octet(w, j) == if j - 4 * base < |Join(ss)| then Join(ss)[j - 4 * base] else 4
  }

  /** Zero-terminated strings filled up with fours are read as the strings if and only if these hold no
      zero and none begins with a four. */
  lemma TextParsed(w: seq<u32>, base: nat, n: nat, ss: seq<seq<u8>>)
    requires base + n <= |w| && TextAt(w, base, n, ss)
    ensures ReadLeaf(w, base, n, 3, 0) == Ok(Text(ss)) <==>
            forall k :: 0 <= k < |ss| ==>
              (forall i :: 0 <= i < |ss[k]| ==> ss[k][i] != 0) && (ss[k] == [] || ss[k][0] != 4)
  {
    hide Join, ReadStrings;
    var b := Bytes(w, 4 * base, 4 * (|w| - base));
    var text := Join(ss) + Fill(4 * n - |Join(ss)|, EOT);
    forall i | 0 <= i < 4 * n ensures b[i] == text[i] {
      OctetIsByte(w, 4 * base + i);
      assert Octet(w, 4 * base + i) == if i < |Join(ss)| then Join(ss)[i] else 4;
    }
    assert b[0..4 * n] == text;
    RoundTrip.StringsRead(b, ss, 4 * n - |Join(ss)|);
  }

  /** Such text in a bank of its own. */
  lemma TextBankParsed(w: seq<u32>, n: nat, tag: u16, num: u8, ss: seq<seq<u8>>)
    requires |w| >= n + 2 && w[0] == n + 1 && w[1] == tag * 65536 + 3 * 256 + num && TextAt(w, 2, n, ss)
    ensures Parse(w) == Ok(Leaf(tag, num, Text(ss))) <==>
            forall k :: 0 <= k < |ss| ==>
              (forall i :: 0 <= i < |ss[k]| ==> ss[k][i] != 0) && (ss[k] == [] || ss[k][0] != 4)
  {
    hide ReadLeaf, TextAt;
    HeadersRead(w, 0, tag, 0, 3, num, 0);
    TextParsed(w, 2, n, ss);
  }

  /** A leaf of two-byte data behind a header that records its padding, in a segment or in a bank, is read
      as exactly its data. */
  lemma {:induction false} HalvesParsed(w: seq<u32>, off: nat, bt: ContainerType, tag: u16, num: u8, code: u8,
                                        hs: seq<u16>)
    requires code in {4, 5} && off + (if bt.IsBank() then 2 else 1) + (|hs| + 1) / 2 <= |w|
    requires var n := (|hs| + 1) / 2;
             if bt.IsBank() then
               w[off] == n + 1 && w[off + 1] == tag * 65536 + |hs| % 2 * 2 * 16384 + code * 256 + num
             else
               && bt.IsSegment() && tag < 256 && num == 0 && n < 65536
               && w[off] == tag * 16777216 + |hs| % 2 * 2 * 4194304 + code * 65536 + n
    requires var base := off + if bt.IsBank() then 2 else 1;
             forall i :: 0 <= i < |hs| ==>
               hs[i] == if i % 2 == 0 then w[base + i / 2] % 65536 else w[base + i / 2] / 65536
    ensures ParseAt(w, off, bt) == Ok(Leaf(tag, num, Words16(if code == 4 then Int16 else UInt16, hs)))
  {
    var n, padding := (|hs| + 1) / 2, |hs| % 2 * 2;
    var base := off + if bt.IsBank() then 2 else 1;
    HeadersRead(w, off, tag, padding, code, num, n);
    hide HeadAt;
    hide Halves;
    assert 2 * n - padding / 2 == |hs|;
    HalvesAre(w, base, hs);
  }

  lemma HalvesAre(w: seq<u32>, base: nat, hs: seq<u16>)
    requires base + (|hs| + 1) / 2 <= |w|
    requires forall i :: 0 <= i < |hs| ==>
      hs[i] == if i % 2 == 0 then w[base + i / 2] % 65536 else w[base + i / 2] / 65536
    ensures Halves(w, base, |hs|) == hs
  {
    forall i | 0 <= i < |hs| ensures Halves(w, base, |hs|)[i] == hs[i] {
      assert (2 * base + i) / 2 == base + i / 2 && (2 * base + i) % 2 == i % 2;
      assert Halves(w, base, |hs|)[i] == HalfAt(w, 2 * base + i);
    }
  }

  /** Likewise one-byte data. */
  lemma {:induction false} BytesParsed(w: seq<u32>, off: nat, bt: ContainerType, tag: u16, num: u8, code: u8,
                                       bs: seq<u8>)
    requires code in {6, 7} && off + (if bt.IsBank() then 2 else 1) + (|bs| + 3) / 4 <= |w|
    requires var n, padding := (|bs| + 3) / 4, (4 - |bs| % 4) % 4;
             if bt.IsBank() then w[off] == n + 1 && w[off + 1] == tag * 65536 + padding * 16384 + code * 256 + num
             else
               && bt.IsSegment() && tag < 256 && num == 0 && n < 65536
               && w[off] == tag * 16777216 + padding * 4194304 + code * 65536 + n
    requires var base := off + if bt.IsBank() then 2 else 1;
             forall i :: 0 <= i < |bs| ==> bs[i] == Octet(w, 4 * base + i)
    ensures ParseAt(w, off, bt) == Ok(Leaf(tag, num, Words8(if code == 6 then Int8 else UInt8, bs)))
  {
    var n, padding := (|bs| + 3) / 4, (4 - |bs| % 4) % 4;
    var base := off + if bt.IsBank() then 2 else 1;
    HeadersRead(w, off, tag, padding, code, num, n);
    hide HeadAt;
    hide Bytes, Octet;
    assert 4 * n - padding == |bs|;
    BytesAre(w, base, bs);
  }

  lemma BytesAre(w: seq<u32>, base: nat, bs: seq<u8>)
    requires base + (|bs| + 3) / 4 <= |w| && forall i :: 0 <= i < |bs| ==> bs[i] == Octet(w, 4 * base + i)
    ensures Bytes(w, 4 * base, |bs|) == bs
  {
    hide Octet, ByteAt;
    assert Bytes(w, 4 * base, |bs|) == bs by {
      forall i | 0 <= i < |bs| ensures Bytes(w, 4 * base, |bs|)[i] == bs[i] {
        OctetIsByte(w, 4 * base + i);
      }
    }
  }
}

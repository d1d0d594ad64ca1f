/** The parser undoes the writer on exactly the trees that are `Faithful`. */
module EvioRoundTrip {
  import opened Words
  import opened EvioTree
  import opened EvioParse

  /** What is left of the padding count after it went through a header. */
  function Recorded(bt: ContainerType, padding: nat): nat {
    if bt.IsBank() then padding else 0
  }

  lemma {:induction false} HeaderRead(w: seq<u32>, off: nat, bt: ContainerType, tag: u16, num: u8, code: u8,
      len: nat, padding: nat)
    requires 1 <= len <= if bt.IsBank() then MAX_WORDS else 0x1_0000
    requires code < 0x40 && padding < 4 && code / 0x10 in {0, 1, 2}
    requires At(w, off, Header(bt, tag, num, code, len, padding))
    ensures HeadAt(w, off, bt).Ok?
    ensures var h := HeadAt(w, off, bt).value;
            && h.len == len
            && h.padding == Recorded(bt, padding)
            && (HeaderFits(bt, tag, num, code) <==> h.tag == tag && h.num == num && h.code == code)
  {
    hide At, OrBit, HeaderFits;
    AtIndex(w, off, Header(bt, tag, num, code, len, padding), 0);
    if bt.IsBank() {
      AtIndex(w, off, Header(bt, tag, num, code, len, padding), 1);
    }
    HeaderDecodes(bt, tag, num, code, len, padding);
  }

  /** The words of a header, taken apart again. */
  lemma HeaderDecodes(bt: ContainerType, tag: u16, num: u8, code: u8, len: nat, padding: nat)
    requires 1 <= len <= if bt.IsBank() then MAX_WORDS else 0x1_0000
    requires code < 0x40 && padding < 4 && code / 0x10 in {0, 1, 2}
    ensures var r := HeadAt(Header(bt, tag, num, code, len, padding), 0, bt);
            && r.Ok? && r.value.len == len && r.value.padding == Recorded(bt, padding)
            && (HeaderFits(bt, tag, num, code) <==> r.value.tag == tag && r.value.num == num && r.value.code == code)
  {
    hide OrBit;
    if bt.IsBank() {
      BankFields(tag, padding, code, num);
    } else if bt.IsSegment() {
      SegmentFields(tag % 0x100, code, len - 1);
    } else {
      TagSegmentRead(tag, code, len);
    }
  }

  lemma TagSegmentRead(tag: u16, code: u8, len: nat)
    requires 1 <= len <= 0x1_0000 && code < 0x40 && code / 0x10 in {0, 1, 2}
    ensures var w := OrBit(tag % 0x1000, code / 0x10) * 0x10_0000 + code % 0x10 * 0x1_0000 + (len - 1);
            && w % 0x1_0000 + 1 == len
            && (tag < 0x1000 && code < 0x10 <==> w / 0x10_0000 == tag && w / 0x1_0000 % 0x10 == code)
  {
    OrBitBound(tag % 0x1000, code);
    TagSegmentFields(OrBit(tag % 0x1000, code / 0x10), code % 0x10, len - 1);
  }

  lemma BankFields(tag: u16, padding: nat, code: u8, num: u8)
    requires padding < 4 && code < 0x40
    ensures var w := tag * 0x1_0000 + padding * 0x4000 + code * 0x100 + num;
            w / 0x1_0000 == tag && w % 0x100 == num && w / 0x100 % 0x40 == code && w / 0x4000 % 4 == padding
  {
    var w := tag * 0x1_0000 + padding * 0x4000 + code * 0x100 + num;
    assert w / 0x100 == tag * 0x100 + padding * 0x40 + code;
    assert w / 0x4000 == tag * 4 + padding;
  }

  lemma SegmentFields(tag: nat, code: u8, len: nat)
    requires tag < 0x100 && code < 0x40 && len < 0x1_0000
    ensures var w := tag * 0x100_0000 + code * 0x1_0000 + len;
            w / 0x100_0000 == tag && w / 0x1_0000 % 0x40 == code && w % 0x1_0000 == len && w / 0x40_0000 % 4 == 0
  {
    var w := tag * 0x100_0000 + code * 0x1_0000 + len;
    assert w / 0x1_0000 == tag * 0x100 + code;
    assert w / 0x40_0000 == tag * 4;
  }

  lemma TagSegmentFields(tag: nat, code: nat, len: nat)
    requires tag < 0x1000 && code < 0x10 && len < 0x1_0000
    ensures var w := tag * 0x10_0000 + code * 0x1_0000 + len;
            w / 0x10_0000 == tag && w / 0x1_0000 % 0x10 == code && w % 0x1_0000 == len
  {
    var w := tag * 0x10_0000 + code * 0x1_0000 + len;
    assert w / 0x1_0000 == tag * 0x10 + code;
  }

  // ----- payloads -----

  /** In front of its NUL a string is read whole unless it has a NUL of its own. */
  lemma CStrRead(b: seq<u8>, s: seq<u8>)
    requires |s| < |b| && b[..|s|] == s && b[|s|] == 0
    ensures if NulFree(s) then CStrLen(b) == |s| else CStrLen(b) < |s|
  {
    assert forall i :: 0 <= i < |s| ==> b[i] == s[i];
    assert CStrLen(b) < |s| ==> b[CStrLen(b)] == s[CStrLen(b)];
  }

  /** The DOM string reader undoes the writer's NUL-terminated, EOT-padded layout, for every total
      length modulo 4, on exactly the NUL-free lists without an EOT-leading string. */
  lemma {:induction false} StringsRead(b: seq<u8>, ss: seq<seq<u8>>, pad: nat)
    requires At(b, 0, Join(ss) + Fill(pad, EOT))
    ensures ReadStrings(b, |Join(ss)| + pad) == Ok(ss) <==> TextFits(ss)
  {
    hide At, CStrLen, NulFree, Join, Fill, TextFits, ReadStrings;
    if ss == [] {
      NoString(b, pad);
    } else {
      FirstString(b, ss, pad);
      TextFitsCons(ss);
      CStrRead(b, ss[0]);
      if NulFree(ss[0]) && !(ss[0] != [] && ss[0][0] == EOT) {
        StringsRead(b[|ss[0]| + 1..], ss[1..], pad);
      }
      OneString(b, |Join(ss)| + pad, ss);
    }
  }

  lemma NoString(b: seq<u8>, pad: nat)
    requires At(b, 0, Join([]) + Fill(pad, EOT))
    ensures ReadStrings(b, |Join([])| + pad) == Ok([]) && TextFits([])
  {
    if pad > 0 {
      AtIndex(b, 0, Join([]) + Fill(pad, EOT), 0);
    }
  }

  lemma OneString(b: seq<u8>, limit: int, ss: seq<seq<u8>>)
    requires ss != [] && |ss[0]| < |b| && limit > |ss[0]| && b[..|ss[0]|] == ss[0] && b[|ss[0]|] == 0
    requires CStrLen(b) == |ss[0]| || CStrLen(b) < |ss[0]|
    ensures ReadStrings(b, limit) == Ok(ss)
            <==> CStrLen(b) == |ss[0]| && !(ss[0] != [] && ss[0][0] == EOT)
                 && ReadStrings(b[|ss[0]| + 1..], limit - (|ss[0]| + 1)) == Ok(ss[1..])
  {
    hide CStrLen;
    var s := ss[0];
    assert ss == [s] + ss[1..];
    assert b[0] == if s == [] then 0 else s[0];
    assert |b[..CStrLen(b)]| == CStrLen(b);
  }

  lemma TextFitsCons(ss: seq<seq<u8>>)
    requires ss != []
    ensures TextFits(ss) <==> NulFree(ss[0]) && (ss[0] == [] || ss[0][0] != EOT) && TextFits(ss[1..])
  {
    hide NulFree;
    assert forall i :: 1 <= i < |ss| ==> ss[i] == ss[1..][i - 1];
  }

  lemma FirstString(b: seq<u8>, ss: seq<seq<u8>>, pad: nat)
    requires ss != [] && At(b, 0, Join(ss) + Fill(pad, EOT))
    ensures |ss[0]| < |b| && b[..|ss[0]|] == ss[0] && b[|ss[0]|] == 0
    ensures At(b[|ss[0]| + 1..], 0, Join(ss[1..]) + Fill(pad, EOT))
    ensures |Join(ss)| == |ss[0]| + 1 + |Join(ss[1..])|
  {
    var s, rest := ss[0], Join(ss[1..]) + Fill(pad, EOT);
    assert Join(ss) + Fill(pad, EOT) == s + [0] + rest;
    AtSplit(b, 0, s + [0], rest);
    AtSplit(b, 0, s, [0]);
    AtIndex(b, |s|, [0], 0);
    assert b[|s| + 1..][..|rest|] == b[|s| + 1..|s| + 1 + |rest|];
  }

  lemma HalvesRead(w: seq<u32>, base: nat, hs: seq<u16>)
    requires At(w, base, PackHalves(EvenHalves(hs)))
    ensures Halves(w, base, |hs|) == hs
  {
    var es := EvenHalves(hs);
    forall i | 0 <= i < |es|
      ensures HalfAt(w, 2 * base + i) == es[i]
    {
      PackedHalf(es, i);
      AtIndex(w, base, PackHalves(es), i / 2);
      assert (2 * base + i) / 2 == base + i / 2 && (2 * base + i) % 2 == i % 2;
    }
    forall i | 0 <= i < |hs|
      ensures Halves(w, base, |hs|)[i] == hs[i]
    {
      assert es[i] == hs[i];
    }
  }

  lemma BytesRead(w: seq<u32>, base: nat, bs: seq<u8>)
    requires At(w, base, PackBytes(Padded(bs, 0)))
    ensures Bytes(w, 4 * base, |bs|) == bs
  {
    var ps := Padded(bs, 0);
    BytesAt(w, base, ps);
    forall i | 0 <= i < |bs|
      ensures Bytes(w, 4 * base, |bs|)[i] == bs[i]
    {
      assert Bytes(w, 4 * base, |ps|)[i] == ps[i];
    }
  }

  lemma PackedQuad(qs: seq<u64>, i: nat)
    requires i < |qs|
    ensures PackQuads(qs)[2 * i] == QuadLo(qs[i]) && PackQuads(qs)[2 * i + 1] == QuadHi(qs[i])
    ensures Quad(QuadLo(qs[i]), QuadHi(qs[i])) == qs[i]
  {
  }

  lemma QuadsRead(w: seq<u32>, base: nat, qs: seq<u64>)
    requires At(w, base, PackQuads(qs))
    ensures Quads(w, base, |qs|) == qs
  {
    forall i | 0 <= i < |qs|
      ensures Quads(w, base, |qs|)[i] == qs[i]
    {
      hide At;
      AtIndex(w, base, PackQuads(qs), 2 * i);
      AtIndex(w, base, PackQuads(qs), 2 * i + 1);
      PackedQuad(qs, i);
    }
  }

  lemma BytesPrefix(w: seq<u32>, lo: nat, m: nat, n: nat)
    requires m <= n && lo + n <= 4 * |w|
    ensures Bytes(w, lo, n)[..m] == Bytes(w, lo, m)
  {
  }

  lemma TextRead(w: seq<u32>, base: nat, ss: seq<seq<u8>>)
    requires At(w, base, PackBytes(Padded(Join(ss), EOT)))
    ensures ReadStrings(Bytes(w, 4 * base, 4 * (|w| - base)), 4 * ((|Join(ss)| + 3) / 4)) == Ok(ss) <==> TextFits(ss)
  {
    hide ReadStrings, TextFits, Join, Bytes, PackBytes;
    var ps := Padded(Join(ss), EOT);
    var b := Bytes(w, 4 * base, 4 * (|w| - base));
    BytesAt(w, base, ps);
    BytesPrefix(w, 4 * base, |ps|, |b|);
    StringsRead(b, ss, PadCount(|Join(ss)|));
  }

  lemma FormatRead(w: seq<u32>, base: nat, f: seq<u8>)
    requires At(w, base, PackBytes(Padded(f + [0], EOT)))
    ensures var b := Bytes(w, 4 * base, 4 * (|w| - base));
            CStrLen(b) < |b| && (b[..CStrLen(b)] == f <==> NulFree(f))
  {
    var ps := Padded(f + [0], EOT);
    var b := Bytes(w, 4 * base, 4 * (|w| - base));
    BytesAt(w, base, ps);
    BytesPrefix(w, 4 * base, |ps|, |b|);
    assert forall i :: 0 <= i <= |f| ==> b[i] == b[..|ps|][i] == (f + [0])[i];
    assert b[..|f|] == f && b[|f|] == 0;
    CStrRead(b, f);
  }

  function CompositeHead(p: Payload): seq<int>
    requires p.Composite?
  {
    [p.formatTag % 0x1000 * 0x10_0000 + 0x3_0000 + FormatWords(p.format)]
  }

  function CompositeBank(p: Payload): seq<int>
    requires p.Composite?
  {
    [|p.data| + 1, p.dataTag * 0x1_0000 + 0x100 + p.dataNum]
  }

  lemma CompositeParts(w: seq<u32>, base: nat, p: Payload)
    requires p.Composite? && PayloadLen(p) < MAX_WORDS && p.FormatFits()
    requires At(w, base, PayloadWords(p))
    ensures At(w, base, CompositeHead(p))
    ensures At(w, base + 1, PackBytes(Padded(p.format + [0], EOT)))
    ensures At(w, base + 1 + FormatWords(p.format), CompositeBank(p))
    ensures At(w, base + 3 + FormatWords(p.format), p.data)
  {
    hide At, PackBytes, PadCount;
    var head, bank := CompositeHead(p), CompositeBank(p);
    var fw := PackBytes(Padded(p.format + [0], EOT));
    assert PayloadWords(p) == head + fw + bank + p.data;
    AtSplit(w, base, head + fw + bank, p.data);
    AtSplit(w, base, head + fw, bank);
    AtSplit(w, base, head, fw);
  }

  lemma CompositeLayout(w: seq<u32>, base: nat, p: Payload)
    requires p.Composite? && PayloadLen(p) < MAX_WORDS && p.FormatFits()
    requires At(w, base, PayloadWords(p))
    ensures var fl := FormatWords(p.format);
            && base + 3 + fl + |p.data| <= |w|
            && w[base] / 0x10_0000 == p.formatTag % 0x1000 && w[base] % 0x1_0000 == fl
            && At(w, base + 1, PackBytes(Padded(p.format + [0], EOT)))
            && w[base + 1 + fl] == |p.data| + 1
            && w[base + 2 + fl] / 0x1_0000 == p.dataTag && w[base + 2 + fl] % 0x100 == p.dataNum
            && w[base + 3 + fl..][..|p.data|] == p.data
  {
    hide At, PackBytes, PadCount, FormatWords, PayloadWords, PayloadLen;
    var fl := FormatWords(p.format);
    CompositeParts(w, base, p);
    AtIndex(w, base, CompositeHead(p), 0);
    AtIndex(w, base + 1 + fl, CompositeBank(p), 0);
    AtIndex(w, base + 1 + fl, CompositeBank(p), 1);
    AtDrop(w, base + 3 + fl, p.data);
    TagSegmentFields(p.formatTag % 0x1000, 3, fl);
    BankFields(p.dataTag, 0, 1, p.dataNum);
  }

  lemma {:induction false} CompositeRead(w: seq<u32>, base: nat, p: Payload)
    requires p.Composite? && PayloadLen(p) < MAX_WORDS && p.FormatFits()
    requires At(w, base, PayloadWords(p))
    ensures ReadComposite(w, base) == Ok(p) <==> p.formatTag < 0x1000 && NulFree(p.format)
  {
    hide Bytes, CStrLen, NulFree, PackBytes, Padded, At, PayloadWords, FormatWords, PayloadLen;
    CompositeLayout(w, base, p);
    FormatRead(w, base + 1, p.format);
  }

  /** Reading the payload words back gives the payload exactly when the payload fits its parent. */
  lemma {:induction false} PayloadRead(w: seq<u32>, base: nat, p: Payload, bt: ContainerType)
    requires PayloadLen(p) < MAX_WORDS && p.FormatFits()
    requires At(w, base, PayloadWords(p))
    ensures base + PayloadLen(p) <= |w|
    ensures ReadLeaf(w, base, PayloadLen(p), p.Code(), Recorded(bt, p.Padding())) == Ok(p) <==> PayloadFits(bt, p)
  {
    hide Bytes, Halves, Quads, ReadStrings, ReadComposite, TextFits, NulFree, Join, PackBytes, PackHalves, PackQuads,
        Padded;
    hide EvenHalves, FormatWords, PadCount;
    PayloadWordsLen(p);
    match p
    case Words32(_, ws) => assert w[base..][..|ws|] == w[base..base + |ws|];
    case Words64(_, qs) => QuadsRead(w, base, qs);
    case Words16(_, hs) => HalvesRead(w, base, hs);
    case Words8(_, bs) => BytesRead(w, base, bs);
    case Text(ss) => TextRead(w, base, ss);
    case Composite(_, _, _, _, _) => CompositeRead(w, base, p);
  }

  // ----- whole trees -----

  lemma LeafRead(w: seq<u32>, off: nat, t: Node, bt: ContainerType)
    requires t.Leaf? && Writable(t, bt) && At(w, off, Ser(t, bt))
    ensures HeadAt(w, off, bt).Ok? && HeadAt(w, off, bt).value.len == Len(t, bt)
    ensures ParseAt(w, off, bt) == Ok(t) <==> Faithful(t, bt)
  {
    hide At, ReadLeaf, PayloadFits, PayloadWords, HeadAt, Header, HeaderFits, ContainerOf;
    var hl, p := bt.HeaderLen(), t.payload;
    PayloadWordsLen(p);
    AtSplit(w, off, Header(bt, t.tag, t.num, p.Code(), Len(t, bt), p.Padding()), PayloadWords(p));
    HeaderRead(w, off, bt, t.tag, t.num, p.Code(), Len(t, bt), p.Padding());
    PayloadRead(w, off + hl, p, bt);
    LeafCode(p);
    var h := HeadAt(w, off, bt).value;
    if h.code != p.Code() && ContainerOf(h.code) == None {
      ReadLeafCode(w, off + hl, h.len - hl, h.code, h.padding);
    }
  }

  /** Wherever it stands in a buffer, a written node parses back to itself exactly when it is
      faithful; and its header always tells its true length. */
  lemma {:induction false} NodeRead(w: seq<u32>, off: nat, t: Node, bt: ContainerType)
    requires Writable(t, bt) && At(w, off, Ser(t, bt))
    ensures HeadAt(w, off, bt).Ok? && HeadAt(w, off, bt).value.len == Len(t, bt)
    ensures ParseAt(w, off, bt) == Ok(t) <==> Faithful(t, bt)
    decreases t, 1
  {
    hide At, ParseAt, Faithful, HeadAt, Header, HeaderFits, PayloadWords;
    match t
    case Leaf(_, _, _) => LeafRead(w, off, t, bt);
    case Container(tag, num, ct, kids) =>
      AtSplit(w, off, Header(bt, tag, num, ct.Code(), Len(t, bt), 0), SerKids(kids, ct));
      HeaderRead(w, off, bt, tag, num, ct.Code(), Len(t, bt), 0);
      KidsRead(w, off + bt.HeaderLen(), kids, ct);
      ContainerRead(w, off, t, bt);
  }

  /** A container whose header and children are known to be read. */
  lemma ContainerRead(w: seq<u32>, off: nat, t: Node, bt: ContainerType)
    requires t.Container? && HeadAt(w, off, bt).Ok? && HeadAt(w, off, bt).value.len == Len(t, bt)
    requires off + Len(t, bt) <= |w|
    requires var h := HeadAt(w, off, bt).value;
      HeaderFits(bt, t.tag, t.num, t.ctype.Code()) <==> h.tag == t.tag && h.num == t.num && h.code == t.ctype.Code()
    requires ParseKids(w, off + bt.HeaderLen(), off + Len(t, bt), t.ctype) == Ok(t.kids) <==>
            FaithfulKids(t.kids, t.ctype)
    ensures ParseAt(w, off, bt) == Ok(t) <==> Faithful(t, bt)
  {
    hide ReadLeaf, PayloadFits, HeadAt, HeaderFits, ContainerOf, ParseKids, FaithfulKids;
    ContainerCode(HeadAt(w, off, bt).value.code, t.ctype);
  }

  lemma ContainerCode(code: u8, ct: ContainerType)
    ensures ContainerOf(code) == Some(ct) <==> code == ct.Code()
  {
  }

  lemma LeafCode(p: Payload)
    ensures ContainerOf(p.Code()) == None
  {
  }

  /** The payload a leaf is read into carries the content type it was read under. */
  lemma ReadLeafCode(w: seq<u32>, base: nat, n: nat, code: u8, padding: nat)
    requires base + n <= |w|
    ensures var r := ReadLeaf(w, base, n, code, padding); r.Ok? ==> r.value.Code() == code
  {
    hide Bytes, Halves, Quads, ReadStrings;
  }

  lemma {:induction false} KidsRead(w: seq<u32>, p: nat, kids: seq<Node>, ct: ContainerType)
    requires WritableKids(kids, ct) && At(w, p, SerKids(kids, ct))
    ensures ParseKids(w, p, p + LenKids(kids, ct), ct) == Ok(kids) <==> FaithfulKids(kids, ct)
    decreases kids, 0
  {
    hide At, HeadAt, Header, ReadLeaf, ContainerOf, HeaderFits, PayloadFits, PayloadWords, PayloadLen, Padded;
    hide ParseAt, Ser, Len, Writable, Faithful, ReadStrings, ReadComposite, Join, PackBytes, PackHalves, PackQuads;
    if kids != [] {
      AtSplit(w, p, Ser(kids[0], ct), SerKids(kids[1..], ct));
      NodeRead(w, p, kids[0], ct);
      KidsRead(w, p + Len(kids[0], ct), kids[1..], ct);
      FirstKidRead(w, p, kids, ct);
    }
  }

  lemma FirstKidRead(w: seq<u32>, p: nat, kids: seq<Node>, ct: ContainerType)
    requires kids != [] && WritableKids(kids, ct) && p + LenKids(kids, ct) <= |w|
    requires HeadAt(w, p, ct).Ok? && HeadAt(w, p, ct).value.len == Len(kids[0], ct)
    ensures ParseKids(w, p, p + LenKids(kids, ct), ct) == Ok(kids)
            <==> ParseAt(w, p, ct) == Ok(kids[0])
                 && ParseKids(w, p + Len(kids[0], ct), p + LenKids(kids, ct), ct) == Ok(kids[1..])
  {
    hide HeadAt, Ser, Len, Writable, Faithful, ParseAt, ReadLeaf, PayloadLen;
    assert kids == [kids[0]] + kids[1..];
  }

  /** Parsing what the writer wrote gives back the same tree if and only if the tree is faithful. */
  lemma RoundTrip(t: Node, post: seq<u32>)
    requires Writable(t, Bank)
    ensures Parse(Ser(t, Bank) + post) == Ok(t) <==> Faithful(t, Bank)
  {
    NodeRead(Ser(t, Bank) + post, 0, t, Bank);
  }
}

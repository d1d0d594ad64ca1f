/** The serializer that fills a word buffer in place, and the length predictor, on the node heap. */
module DomWriter {
  import opened Words
  import opened EvioTree
  import opened EvioSize
  import opened Dom
  import opened DomHolds

  /** `before` and `after` differ at most on the indices lo..hi. */
  predicate SameOutside(before: seq<u32>, after: seq<u32>, lo: int, hi: int) {
    |before| == |after| && forall k :: 0 <= k < |before| && !(lo <= k < hi) ==> after[k] == before[k]
  }

  lemma SameOutsideSelf(s: seq<u32>, lo: int, hi: int)
    ensures SameOutside(s, s, lo, hi)
  {
  }

  lemma SameOutsideBoth(a: seq<u32>, b: seq<u32>, c: seq<u32>, lo: int, hi: int, lo': int, hi': int)
    requires SameOutside(a, b, lo, hi) && SameOutside(b, c, lo', hi')
    requires lo <= lo' && (hi' <= hi || hi' <= lo')
    ensures SameOutside(a, c, lo, hi)
  {
  }

  // ----- stores through narrower pointers -----

  lemma ByteAfterStore(s: seq<u32>, i: nat, b: u8, k: nat)
    requires i < 4 * |s| && k < 4 * |s|
    ensures ByteAt(s[i / 4 := SetByte(s[i / 4], i % 4, b)], k) == if k == i then b else ByteAt(s, k)
  {
    SetByteBytes(s[i / 4], i % 4, b);
    assert k == k / 4 * 4 + k % 4 && i == i / 4 * 4 + i % 4;
  }

  lemma HalfAfterStore(s: seq<u32>, i: nat, h: u16, k: nat)
    requires i < 2 * |s| && k < 2 * |s|
    ensures HalfAt(s[i / 2 := SetHalf(s[i / 2], i % 2, h)], k) == if k == i then h else HalfAt(s, k)
  {
    SetHalfHalves(s[i / 2], i % 2, h);
    assert k == k / 2 * 2 + k % 2 && i == i / 2 * 2 + i % 2;
  }

  /** `c[i] = b`, where the bytes of `out` were the last ones stored, from byte index `base`. */
  method PutByte(buf: array<u32>, i: nat, b: u8, ghost base: nat, ghost out: seq<u8>)
    requires i == base + |out| < 4 * buf.Length && Bytes(buf[..], base, |out|) == out
    modifies buf
    ensures Bytes(buf[..], base, |out| + 1) == out + [b]
    ensures SameOutside(old(buf[..]), buf[..], i / 4, i / 4 + 1)
  {
    ghost var before := buf[..];
    buf[i / 4] := SetByte(buf[i / 4], i % 4, b);
    assert buf[..] == before[i / 4 := SetByte(before[i / 4], i % 4, b)];
    forall j | 0 <= j <= |out|
      ensures ByteAt(buf[..], base + j) == (out + [b])[j]
    {
      ByteAfterStore(before, i, b, base + j);
      if j < |out| {
        assert Bytes(before, base, |out|)[j] == out[j];
      }
    }
  }

  method PutHalf(buf: array<u32>, i: nat, h: u16, ghost base: nat, ghost out: seq<u16>)
    requires i == 2 * base + |out| < 2 * buf.Length && Halves(buf[..], base, |out|) == out
    modifies buf
    ensures Halves(buf[..], base, |out| + 1) == out + [h]
    ensures SameOutside(old(buf[..]), buf[..], i / 2, i / 2 + 1)
  {
    ghost var before := buf[..];
    buf[i / 2] := SetHalf(buf[i / 2], i % 2, h);
    assert buf[..] == before[i / 2 := SetHalf(before[i / 2], i % 2, h)];
    forall j | 0 <= j <= |out|
      ensures HalfAt(buf[..], 2 * base + j) == (out + [h])[j]
    {
      HalfAfterStore(before, i, h, 2 * base + j);
      if j < |out| {
        assert Halves(before, base, |out|)[j] == out[j];
      }
    }
  }

  /** Stores `bs` byte by byte behind `out`. */
  method PutBytes(buf: array<u32>, bs: seq<u8>, ghost base: nat, start: nat, ghost out: seq<u8>)
    requires start == base + |out| && start + |bs| <= 4 * buf.Length && Bytes(buf[..], base, |out|) == out
    modifies buf
    ensures Bytes(buf[..], base, |out + bs|) == out + bs
    ensures SameOutside(old(buf[..]), buf[..], start / 4, (start + |bs| + 3) / 4)
  {
    assert bs[..0] == [] && out + [] == out;
    for i := 0 to |bs|
      invariant Bytes(buf[..], base, |out| + i) == out + bs[..i]
      invariant SameOutside(old(buf[..]), buf[..], start / 4, (start + i + 3) / 4)
    {
      PutByte(buf, start + i, bs[i], base, out + bs[..i]);
      assert out + bs[..i] + [bs[i]] == out + bs[..i + 1];
    }
    assert bs[..|bs|] == bs;
  }

  lemma AtFromBytes(s: seq<u32>, off: nat, bs: seq<u8>)
    requires |bs| % 4 == 0 && off + |bs| / 4 <= |s| && Bytes(s, 4 * off, |bs|) == bs
    ensures At(s, off, PackBytes(bs))
  {
    hide ByteAt, PackBytes;
    var ws := s[off..off + |bs| / 4];
    forall i | 0 <= i < |bs|
      ensures ByteAt(ws, i) == bs[i]
    {
      assert Bytes(s, 4 * off, |bs|)[i] == bs[i];
      ByteOfSlice(s, off, |ws|, i);
    }
    WordsFromBytes(ws, bs);
  }

  lemma ByteOfSlice(s: seq<u32>, off: nat, n: nat, i: nat)
    requires off + n <= |s| && i < 4 * n
    ensures ByteAt(s[off..off + n], i) == ByteAt(s, 4 * off + i)
  {
    assert (4 * off + i) / 4 == off + i / 4 && (4 * off + i) % 4 == i % 4;
  }

  lemma AtFromHalves(s: seq<u32>, off: nat, hs: seq<u16>)
    requires |hs| % 2 == 0 && off + |hs| / 2 <= |s| && Halves(s, off, |hs|) == hs
    ensures At(s, off, PackHalves(hs))
  {
    var ws := s[off..off + |hs| / 2];
    forall i | 0 <= i < |hs|
      ensures HalfAt(ws, i) == hs[i]
    {
      assert Halves(s, off, |hs|)[i] == hs[i];
      HalfOfSlice(s, off, |ws|, i);
    }
    WordsFromHalves(ws, hs);
  }

  lemma HalfOfSlice(s: seq<u32>, off: nat, n: nat, i: nat)
    requires off + n <= |s| && i < 2 * n
    ensures HalfAt(s[off..off + n], i) == HalfAt(s, 2 * off + i)
  {
    assert (2 * off + i) / 2 == off + i / 2 && (2 * off + i) % 2 == i % 2;
  }

  // ----- payloads, one per case of the switch -----

  method PutWords(buf: array<u32>, at: nat, ws: seq<u32>)
    requires at + |ws| <= buf.Length
    modifies buf
    ensures At(buf[..], at, ws)
    ensures SameOutside(old(buf[..]), buf[..], at, at + |ws|)
  {
    for i := 0 to |ws|
      invariant forall k :: 0 <= k < i ==> buf[at + k] == ws[k]
      invariant SameOutside(old(buf[..]), buf[..], at, at + i)
    {
      buf[at + i] := ws[i];
    }
    assert buf[..][at..at + |ws|] == ws;
  }

  method PutQuads(buf: array<u32>, at: nat, qs: seq<u64>)
    requires at + 2 * |qs| <= buf.Length
    modifies buf
    ensures At(buf[..], at, PackQuads(qs))
    ensures SameOutside(old(buf[..]), buf[..], at, at + 2 * |qs|)
  {
    for i := 0 to |qs|
      invariant forall k :: 0 <= k < 2 * i ==> buf[at + k] == PackQuads(qs)[k]
      invariant SameOutside(old(buf[..]), buf[..], at, at + 2 * i)
    {
      buf[at + 2 * i], buf[at + 2 * i + 1] := QuadLo(qs[i]), QuadHi(qs[i]);
    }
    assert buf[..][at..at + 2 * |qs|] == PackQuads(qs);
  }

  method PutShorts(buf: array<u32>, at: nat, hs: seq<u16>)
    requires at + (|hs| + 1) / 2 <= buf.Length
    modifies buf
    ensures At(buf[..], at, PackHalves(EvenHalves(hs)))
    ensures SameOutside(old(buf[..]), buf[..], at, at + (|hs| + 1) / 2)
  {
    for i := 0 to |hs|
      invariant Halves(buf[..], at, i) == hs[..i]
      invariant SameOutside(old(buf[..]), buf[..], at, at + (i + 1) / 2)
    {
      PutHalf(buf, 2 * at + i, hs[i], at, hs[..i]);
      assert hs[..i] + [hs[i]] == hs[..i + 1];
    }
    assert hs[..|hs|] == hs;
    if |hs| % 2 != 0 {
      PutHalf(buf, 2 * at + |hs|, 0, at, hs);
    }
    AtFromHalves(buf[..], at, EvenHalves(hs));
  }

  method PutPadded(buf: array<u32>, at: nat, bs: seq<u8>, pad: u8)
    requires at + (|bs| + 3) / 4 <= buf.Length
    modifies buf
    ensures At(buf[..], at, PackBytes(Padded(bs, pad)))
    ensures SameOutside(old(buf[..]), buf[..], at, at + (|bs| + 3) / 4)
  {
    PutBytes(buf, bs, 4 * at, 4 * at, []);
    assert [] + bs == bs;
    PutBytes(buf, Fill(PadCount(|bs|), pad), 4 * at, 4 * at + |bs|, bs);
    AtFromBytes(buf[..], at, Padded(bs, pad));
  }

  lemma JoinAppend(ss: seq<seq<u8>>, s: seq<u8>)
    ensures Join(ss + [s]) == Join(ss) + s + [0]
  {
    if ss == [] {
      assert Join([s]) == s + [0] + Join([s][1..]);
    } else {
      JoinAppend(ss[1..], s);
      assert (ss + [s])[1..] == ss[1..] + [s];
    }
  }

  lemma JoinPrefix(ss: seq<seq<u8>>, j: nat)
    requires j <= |ss|
    ensures |Join(ss[..j])| <= |Join(ss)|
    decreases |ss| - j
  {
    if j < |ss| {
      JoinPrefix(ss, j + 1);
      JoinAppend(ss[..j], ss[j]);
      assert ss[..j] + [ss[j]] == ss[..j + 1];
    } else {
      assert ss[..j] == ss;
    }
  }

  /** One string and its NUL. */
  method PutString(buf: array<u32>, at: nat, s: seq<u8>, total: nat, ghost ss: seq<seq<u8>>)
    requires total == |Join(ss)| && 4 * at + total + |s| < 4 * buf.Length
    requires Bytes(buf[..], 4 * at, total) == Join(ss)
    modifies buf
    ensures |Join(ss + [s])| == total + |s| + 1
    ensures Bytes(buf[..], 4 * at, total + |s| + 1) == Join(ss + [s])
    ensures SameOutside(old(buf[..]), buf[..], at, at + (total + |s| + 4) / 4)
  {
    JoinAppend(ss, s);
    PutBytes(buf, s, 4 * at, 4 * at + total, Join(ss));
    PutByte(buf, 4 * at + total + |s|, 0, 4 * at, Join(ss) + s);
  }

  /** The string case: room is checked string by string, so a failing run has stored a prefix. */
  method PutStrings(buf: array<u32>, at: nat, ss: seq<seq<u8>>, room: int) returns (fits: bool)
    requires room >= 0 ==> at + room <= buf.Length
    requires at <= buf.Length
    modifies buf
    ensures fits <==> ss == [] || (|Join(ss)| + 3) / 4 <= room
    ensures fits ==> At(buf[..], at, PackBytes(Padded(Join(ss), EOT)))
    ensures SameOutside(old(buf[..]), buf[..], at, at + Max(room, 0))
  {
    hide Join, Bytes, At, PackBytes, Padded, SameOutside;
    NothingPut(buf[..], 4 * at, ss);
    SameOutsideSelf(buf[..], at, at + Max(room, 0));
    var total := 0;
    for j := 0 to |ss|
      invariant total == |Join(ss[..j])| && (j == 0 || (total + 3) / 4 <= room)
      invariant total <= 4 * (buf.Length - at) && Bytes(buf[..], 4 * at, total) == Join(ss[..j])
      invariant SameOutside(old(buf[..]), buf[..], at, at + Max(room, 0))
    {
      assert ss[..j] + [ss[j]] == ss[..j + 1];
      if (total + |ss[j]| + 1 + 3) / 4 > room {
        JoinAppend(ss[..j], ss[j]);
        JoinPrefix(ss, j + 1);
        return false;
      }
      ghost var before := buf[..];
      PutString(buf, at, ss[j], total, ss[..j]);
      SameOutsideBoth(old(buf[..]), before, buf[..], at, at + Max(room, 0), at, at + (total + |ss[j]| + 4) / 4);
      total := total + |ss[j]| + 1;
    }
    assert ss[..|ss|] == ss;
    ghost var strings := buf[..];
    PutFiller(buf, at, total, room, Join(ss));
    SameOutsideBoth(old(buf[..]), strings, buf[..], at, at + Max(room, 0), at, at + Max(room, 0));
    fits := true;
  }

  /** EOT up to the end of the last word. */
  method PutFiller(buf: array<u32>, at: nat, total: nat, room: int, ghost bs: seq<u8>)
    requires total == |bs| && (total == 0 || (total + 3) / 4 <= room) && (room >= 0 ==> at + room <= buf.Length)
    requires total <= 4 * (buf.Length - at) && Bytes(buf[..], 4 * at, total) == bs
    modifies buf
    ensures At(buf[..], at, PackBytes(Padded(bs, EOT)))
    ensures SameOutside(old(buf[..]), buf[..], at, at + Max(room, 0))
  {
    hide Bytes, At, PackBytes;
    PutBytes(buf, Fill(PadCount(total), EOT), 4 * at, 4 * at + total, bs);
    AtFromBytes(buf[..], at, Padded(bs, EOT));
  }

  lemma NothingPut(b: seq<u32>, lo: nat, ss: seq<seq<u8>>)
    requires lo <= 4 * |b|
    ensures ss[..0] == [] && Join(ss[..0]) == [] && Bytes(b, lo, 0) == []
  {
  }

  lemma AtSame(before: seq<u32>, after: seq<u32>, lo: int, hi: int, off: nat, ws: seq<u32>)
    requires SameOutside(before, after, lo, hi) && At(before, off, ws)
    requires off + |ws| <= lo || hi <= off
    ensures At(after, off, ws)
  {
    assert after[off..off + |ws|] == before[off..off + |ws|];
  }

  /** A store behind `done` extends it. */
  lemma AtExtend(before: seq<u32>, after: seq<u32>, lo: int, hi: int, off: nat, done: seq<u32>, more: seq<u32>)
    requires SameOutside(before, after, lo, hi) && off + |done| <= lo
    requires At(before, off, done) && At(after, off + |done|, more)
    ensures At(after, off, done + more)
  {
    AtSame(before, after, lo, hi, off, done);
    AtSplit(after, off, done, more);
  }

  method PutWord(buf: array<u32>, at: nat, w: u32)
    requires at < buf.Length
    modifies buf
    ensures buf[at] == w && At(buf[..], at, [w])
    ensures SameOutside(old(buf[..]), buf[..], at, at + 1)
  {
    buf[at] := w;
  }

  /** The format string with its terminator and padding.  One NUL is stored beyond the terminator;
      the padding, or whatever comes in the next word, overwrites it. */
  method PutFormat(buf: array<u32>, at: nat, f: seq<u8>)
    requires at + FormatWords(f) < buf.Length
    modifies buf
    ensures At(buf[..], at, PackBytes(Padded(f + [0], EOT)))
    ensures SameOutside(old(buf[..]), buf[..], at, at + FormatWords(f) + 1)
  {
    hide Bytes, SetByte;
    PutBytes(buf, f + [0], 4 * at, 4 * at, []);
    assert [] + (f + [0]) == f + [0];
    PutByte(buf, 4 * at + |f| + 1, 0, 4 * at, f + [0]);
    BytesPrefix(buf[..], 4 * at, |f| + 1);
    PutBytes(buf, Fill(PadCount(|f| + 1), EOT), 4 * at, 4 * at + |f| + 1, f + [0]);
    AtFromBytes(buf[..], at, Padded(f + [0], EOT));
  }

  lemma BytesPrefix(s: seq<u32>, base: nat, n: nat)
    requires base + n < 4 * |s|
    ensures Bytes(s, base, n) == Bytes(s, base, n + 1)[..n]
  {
  }

  method PutBank(buf: array<u32>, at: nat, length: u32, header: u32, ws: seq<u32>)
    requires at + 2 + |ws| <= buf.Length
    modifies buf
    ensures At(buf[..], at, [length, header] + ws)
    ensures SameOutside(old(buf[..]), buf[..], at, at + 2 + |ws|)
  {
    PutWord(buf, at, length);
    PutWord(buf, at + 1, header);
    assert buf[..][at..at + 2] == [length, header];
    ghost var s := buf[..];
    PutWords(buf, at + 2, ws);
    AtExtend(s, buf[..], at + 2, at + 2 + |ws|, at, [length, header], ws);
  }

  /** A tagsegment with the format string, then a bank with the data. */
  method PutComposite(buf: array<u32>, at: nat, p: Payload)
    requires p.Composite? && p.FormatFits() && PayloadLen(p) < MAX_WORDS && at + PayloadLen(p) <= buf.Length
    modifies buf
    ensures At(buf[..], at, PayloadWords(p))
    ensures SameOutside(old(buf[..]), buf[..], at, at + PayloadLen(p))
  {
    hide At, PackBytes, PadCount, PayloadWords;
    var n, fl := |p.data|, FormatWords(p.format);
    var head: u32, length: u32, header: u32 :=
      p.formatTag % 0x1000 * 0x10_0000 + 0x3_0000 + fl, n + 1, p.dataTag * 0x1_0000 + 0x100 + p.dataNum;
    ghost var fw := PackBytes(Padded(p.format + [0], EOT));
    PutWord(buf, at, head);
    ghost var s0 := buf[..];
    PutFormat(buf, at + 1, p.format);
    AtExtend(s0, buf[..], at + 1, at + fl + 2, at, [head], fw);
    ghost var s1 := buf[..];
    PutBank(buf, at + fl + 1, length, header, p.data);
    AtExtend(s1, buf[..], at + fl + 1, at + PayloadLen(p), at, [head] + fw, [length, header] + p.data);
    CompositeWords(p, head, length, header);
  }

  lemma CompositeWords(p: Payload, head: u32, length: u32, header: u32)
    requires p.Composite? && p.FormatFits() && PayloadLen(p) < MAX_WORDS
    requires head == p.formatTag % 0x1000 * 0x10_0000 + 0x3_0000 + FormatWords(p.format)
    requires length == |p.data| + 1 && header == p.dataTag * 0x1_0000 + 0x100 + p.dataNum
    ensures PayloadWords(p) == [head] + PackBytes(Padded(p.format + [0], EOT)) + ([length, header] + p.data)
  {
    hide PackBytes, Padded;
  }

  /** The leaf switch: copies the data of a leaf behind its header of `hl` words. */
  method PutPayload(buf: array<u32>, off: nat, hl: nat, p: Payload, size: int) returns (r: Result<nat, WriteError>)
    requires p.FormatFits() && 0 < size < MAX_WORDS && off + size <= buf.Length && off + hl <= buf.Length
    modifies buf
    ensures r == if hl + PayloadLen(p) > size && p != Text([]) then Err(TooSmall) else Ok(PayloadLen(p))
    ensures r.Ok? ==> PayloadLen(p) < MAX_WORDS && At(buf[..], off + hl, PayloadWords(p))
    ensures SameOutside(old(buf[..]), buf[..], off + hl, off + Max(size, hl))
  {
    hide At, PackBytes, PackHalves, PackQuads, PadCount, Padded, EvenHalves, FormatWords;
    var at := off + hl;
    match p
    case Text(ss) =>
      var fits := PutStrings(buf, at, ss, size - hl);
      r := if fits then Ok(PayloadLen(p)) else Err(TooSmall);
    case Words32(_, ws) =>
      if hl + |ws| > size { return Err(TooSmall); }
      PutWords(buf, at, ws);
      r := Ok(|ws|);
    case Words16(_, hs) =>
      if hl + (|hs| + 1) / 2 > size { return Err(TooSmall); }
      PutShorts(buf, at, hs);
      r := Ok((|hs| + 1) / 2);
    case Words8(_, bs) =>
      if hl + (|bs| + 3) / 4 > size { return Err(TooSmall); }
      PutPadded(buf, at, bs, 0);
      r := Ok((|bs| + 3) / 4);
    case Words64(_, qs) =>
      if hl + |qs| * 2 > size { return Err(TooSmall); }
      PutQuads(buf, at, qs);
      r := Ok(|qs| * 2);
    case Composite(_, _, _, _, _) =>
      if hl + PayloadLen(p) > size { return Err(TooSmall); }
      PutComposite(buf, at, p);
      r := Ok(PayloadLen(p));
  }

  // ----- headers -----

  /** The header as first stored: no length and no padding yet. */
  function HeaderStart(bt: ContainerType, tag: u16, num: u8, code: u8): (h: seq<u32>)
    requires code <= 0x40 && code / 0x10 in {0, 1, 2, 4}
    ensures |h| == bt.HeaderLen()
  {
    if bt.IsBank() then [0, tag * 0x1_0000 + code * 0x100 + num]
    else if bt.IsSegment() then [tag % 0x100 * 0x100_0000 + code * 0x1_0000]
    else
      OrBitBound(tag % 0x1000, code);
      [OrBit(tag % 0x1000, code / 0x10) * 0x10_0000 + code % 0x10 * 0x1_0000]
  }

  lemma CodeBound(b: Body)
    ensures b.Code() <= 0x40 && b.Code() / 0x10 in {0, 1, 2, 4}
    ensures b.LeafBody? || b.IsContainer() ==> b.Code() < 0x40
  {
  }

  lemma HeaderFromStart(bt: ContainerType, tag: u16, num: u8, code: u8, len: nat, padding: nat)
    requires code < 0x40 && code / 0x10 in {0, 1, 2} && padding < 4
    requires 1 <= len <= if bt.IsBank() then MAX_WORDS else 0x1_0000
    ensures var s, h := HeaderStart(bt, tag, num, code), Header(bt, tag, num, code, len, padding);
            if bt.IsBank() then h == [len - 1, s[1] + padding * 0x4000] && s[1] + padding * 0x4000 <= 0xffff_ffff
            else h == [s[0] + (len - 1)] && s[0] + (len - 1) <= 0xffff_ffff
  {
    hide OrBit;
    if bt.IsBank() {
    } else if bt.IsSegment() {
    } else {
      OrBitBound(tag % 0x1000, code);
    }
  }

  /** Completes the header with the length and, in a bank, the padding. */
  method PutHeader(buf: array<u32>, off: nat, bt: ContainerType, tag: u16, num: u8, code: u8, len: nat, padding: nat)
    requires code < 0x40 && code / 0x10 in {0, 1, 2} && padding < 4
    requires 1 <= len <= if bt.IsBank() then MAX_WORDS else 0x1_0000
    requires At(buf[..], off, HeaderStart(bt, tag, num, code))
    modifies buf
    ensures At(buf[..], off, Header(bt, tag, num, code, len, padding))
    ensures SameOutside(old(buf[..]), buf[..], off, off + bt.HeaderLen())
  {
    hide Header, HeaderStart;
    HeaderFromStart(bt, tag, num, code, len, padding);
    ghost var start := HeaderStart(bt, tag, num, code);
    AtIndex(buf[..], off, start, 0);
    if bt.IsBank() {
      AtIndex(buf[..], off, start, 1);
      buf[off], buf[off + 1] := len - 1, buf[off + 1] + padding * 0x4000;
    } else {
      // Storing the padding is where the source has `!=` for `|=`.
      buf[off] := buf[off] + (len - 1);
    }
    assert buf[..][off..off + bt.HeaderLen()] == Header(bt, tag, num, code, len, padding);
  }

  // ----- the recursive writer -----

  /** Words a run with `size` words at its disposal may store to: a header of two goes out before
      a size of one is noticed. */
  function Reach(size: int): (n: nat)
    ensures size <= n <= Max(size, 2)
  {
    if size <= 0 then 0 else Max(size, 2)
  }

  /** Serializes `n`, which stands for `t`, to `buf[off..]`. */
  method ToEvioBuffer(buf: array<u32>, off: nat, n: DomNode, size: int, ghost t: Node, ghost S: set<DomNode>)
    returns (r: Result<nat, WriteError>)
    requires Holds(n, t, S) && FormatsFit(t)
    requires n.parent != null ==> n.parent.body.ContainerBody?
    requires size < MAX_WORDS && off + Reach(size) <= buf.Length
    modifies buf
    ensures r == WriteResult(t, BankTypeOf(n), size)
    ensures r.Ok? ==> Writable(t, BankTypeOf(n)) && r.value == Len(t, BankTypeOf(n))
                      && At(buf[..], off, Ser(t, BankTypeOf(n)))
    ensures SameOutside(old(buf[..]), buf[..], off, off + Reach(size))
    decreases t, 2
  {
    hide At, PayloadLen, Padded, Header, HeaderStart, Holds, FormatsFit, PayloadWords, SerKids, WriteKidsResult,
        WritableKids;
    WriteExact(t, BankTypeOf(n), size);
    NodeFacts(n, t, S);
    if size <= 0 {
      return Err(IllegalSize);
    }
    var bt := BankTypeOf(n);
    CodeBound(n.body);
    StoreHeaderStart(buf, off, bt, n.tag, n.num, n.body.Code());
    ghost var s0 := buf[..];
    var hl := bt.HeaderLen();
    var written := WriteBody(buf, off, n, hl, size, t, S);
    if written.Err? {
      return written;
    }
    var len := written.value;
    AtSame(s0, buf[..], off + hl, off + Max(size, hl), off, HeaderStart(bt, n.tag, n.num, n.body.Code()));
    if !bt.IsBank() && len - 1 > 0xffff {
      return Err(TooLong);
    }
    var padding := if n.body.LeafBody? then n.body.payload.Padding() else 0;
    Close(buf, off, bt, n.tag, n.num, n.body.Code(), len, padding, BodyWords(t));
    r := Ok(len);
  }

  lemma NodeFacts(n: DomNode, t: Node, S: set<DomNode>)
    requires Holds(n, t, S)
    ensures n.tag == t.tag && n.num == t.num
    ensures n.body == if t.Leaf? then LeafBody(t.payload) else ContainerBody(t.ctype)
  {
  }

  ghost function BodyWords(t: Node): seq<u32>
    requires if t.Leaf? then PayloadLen(t.payload) < MAX_WORDS && t.payload.FormatFits()
             else WritableKids(t.kids, t.ctype)
  {
    if t.Leaf? then PayloadWords(t.payload) else SerKids(t.kids, t.ctype)
  }

  /** Everything behind the header; the result counts the header in. */
  method WriteBody(buf: array<u32>, off: nat, n: DomNode, hl: nat, size: int, ghost t: Node, ghost S: set<DomNode>)
    returns (r: Result<nat, WriteError>)
    requires Holds(n, t, S) && FormatsFit(t) && 1 <= hl <= 2
    requires 0 < size < MAX_WORDS && off + Max(size, hl) <= buf.Length
    modifies buf
    ensures r == if t.Leaf? then
              if hl + PayloadLen(t.payload) > size && t.payload != Text([]) then Err(TooSmall)
              else Ok(hl + PayloadLen(t.payload))
                 else if t.ctype.IsContainer() then WriteKidsResult(t.kids, t.ctype, hl, size) else Err(IllegalLeaf)
    ensures r.Ok? ==> if t.Leaf? then PayloadLen(t.payload) < MAX_WORDS && t.payload.FormatFits()
                      else WritableKids(t.kids, t.ctype)
    ensures r.Ok? ==> r.value == hl + |BodyWords(t)|
                      && At(buf[..], off + hl, BodyWords(t))
    ensures SameOutside(old(buf[..]), buf[..], off + hl, off + Max(size, hl))
    decreases t, 1
  {
    hide At, PayloadLen, Padded, SerKids, WriteKidsResult, WritableKids, HoldsKids, FormatsFitKids;
    if n.body.ContainerBody? && n.body.IsContainer() {
      r := WriteKids(buf, off, n, hl, size, t, S);
    } else if n.body.ContainerBody? {
      r := Err(IllegalLeaf);
    } else {
      r := PutPayload(buf, off, hl, n.body.payload, size);
      if r.Ok? {
        PayloadWordsLen(n.body.payload);
        r := Ok(hl + r.value);
      }
    }
  }

  /** Completes the header in front of `body`. */
  method Close(buf: array<u32>, off: nat, bt: ContainerType, tag: u16, num: u8, code: u8, len: nat, padding: nat,
      ghost body: seq<u32>)
    requires code < 0x40 && code / 0x10 in {0, 1, 2} && padding < 4
    requires 1 <= len <= if bt.IsBank() then MAX_WORDS else 0x1_0000
    requires At(buf[..], off, HeaderStart(bt, tag, num, code)) && At(buf[..], off + bt.HeaderLen(), body)
    modifies buf
    ensures At(buf[..], off, Header(bt, tag, num, code, len, padding) + body)
    ensures SameOutside(old(buf[..]), buf[..], off, off + bt.HeaderLen())
  {
    hide At, Header, HeaderStart;
    PutHeader(buf, off, bt, tag, num, code, len, padding);
    AtSame(old(buf[..]), buf[..], off, off + bt.HeaderLen(), off + bt.HeaderLen(), body);
    AtSplit(buf[..], off, Header(bt, tag, num, code, len, padding), body);
  }

  method StoreHeaderStart(buf: array<u32>, off: nat, bt: ContainerType, tag: u16, num: u8, code: u8)
    requires code <= 0x40 && code / 0x10 in {0, 1, 2, 4} && off + bt.HeaderLen() <= buf.Length
    modifies buf
    ensures At(buf[..], off, HeaderStart(bt, tag, num, code))
    ensures SameOutside(old(buf[..]), buf[..], off, off + bt.HeaderLen())
  {
    var h := HeaderStart(bt, tag, num, code);
    buf[off] := h[0];
    if bt.IsBank() {
      buf[off + 1] := h[1];
    }
    assert buf[..][off..off + bt.HeaderLen()] == h;
  }

  /** With `done` stored and `kids` to go, both the outcome and the words of the whole list are
      what `done` and `kids` make them. */
  ghost predicate Progress(all: seq<Node>, ct: ContainerType, hl: nat, size: int, kids: seq<Node>, pos: nat,
      done: seq<u32>) {
    && |kids| <= |all| && kids == all[|all| - |kids|..]
    && pos == hl + |done|
    && WriteKidsResult(all, ct, hl, size) == WriteKidsResult(kids, ct, pos, size)
    && (WritableKids(kids, ct) ==> WritableKids(all, ct) && SerKids(all, ct) == done + SerKids(kids, ct))
  }

  lemma ProgressStart(all: seq<Node>, ct: ContainerType, hl: nat, size: int)
    ensures Progress(all, ct, hl, size, all, hl, [])
  {
  }

  lemma ProgressStep(all: seq<Node>, ct: ContainerType, hl: nat, size: int, kids: seq<Node>, pos: nat, done: seq<u32>)
    requires Progress(all, ct, hl, size, kids, pos, done) && kids != []
    requires Writable(kids[0], ct) && WriteResult(kids[0], ct, size - pos - 1) == Ok(Len(kids[0], ct))
    requires pos + Len(kids[0], ct) <= size
    ensures Progress(all, ct, hl, size, kids[1..], pos + Len(kids[0], ct), done + Ser(kids[0], ct))
  {
    hide Len, Writable, Ser, WriteResult;
    if WritableKids(kids[1..], ct) {
      assert done + (Ser(kids[0], ct) + SerKids(kids[1..], ct)) == done + Ser(kids[0], ct) + SerKids(kids[1..], ct);
    }
  }

  lemma ProgressFails(all: seq<Node>, ct: ContainerType, hl: nat, size: int, kids: seq<Node>, pos: nat, done: seq<u32>)
    requires Progress(all, ct, hl, size, kids, pos, done) && kids != []
    ensures var r := WriteResult(kids[0], ct, size - pos - 1);
            && (r.Err? ==> WriteKidsResult(all, ct, hl, size) == r)
            && (r.Ok? && pos + r.value > size ==> WriteKidsResult(all, ct, hl, size) == Err(TooSmall))
  {
    hide Len, Writable, Ser, WriteResult;
  }

  lemma ProgressDone(all: seq<Node>, ct: ContainerType, hl: nat, size: int, pos: nat, done: seq<u32>)
    requires Progress(all, ct, hl, size, [], pos, done)
    ensures WritableKids(all, ct) && SerKids(all, ct) == done && WriteKidsResult(all, ct, hl, size) == Ok(pos)
  {
  }

  /** The nodes of `iter`, children of `n`, stand for `kids` and can be written. */
  ghost predicate Pending(n: DomNode, iter: seq<DomNode>, kids: seq<Node>, S: set<DomNode>)
    reads S
  {
    HoldsKids(n, iter, kids, S) && FormatsFitKids(kids)
  }

  lemma PendingStep(n: DomNode, iter: seq<DomNode>, kids: seq<Node>, S: set<DomNode>)
    requires Pending(n, iter, kids, S)
    ensures iter == [] <==> kids == []
    ensures iter != [] ==> iter[0].parent == n && Holds(iter[0], kids[0], S) && FormatsFit(kids[0])
                           && Pending(n, iter[1..], kids[1..], S)
    ensures iter != [] && n.body.ContainerBody? ==> BankTypeOf(iter[0]) == n.body.ctype
  {
  }

  /** One turn of the loop: serializes a child behind `done`, keeping one word of `room` back. */
  method WriteKid(buf: array<u32>, at: nat, used: nat, n: DomNode, next: nat, room: int, ghost t: Node,
      ghost S: set<DomNode>, ghost done: seq<u32>)
    returns (r: Result<nat, WriteError>)
    requires Holds(n, t, S) && FormatsFit(t)
    requires n.parent != null && n.parent.body.ContainerBody?
    requires room < MAX_WORDS && used == |done| && next == at + used && next + Max(room, 0) <= buf.Length
    requires At(buf[..], at, done)
    modifies buf
    ensures var w := WriteResult(t, BankTypeOf(n), room - 1);
            r == if w.Ok? && w.value > room then Err(TooSmall) else w
    ensures r.Ok? ==> Writable(t, BankTypeOf(n)) && r.value == Len(t, BankTypeOf(n))
                      && At(buf[..], at, done + Ser(t, BankTypeOf(n)))
    ensures SameOutside(old(buf[..]), buf[..], next, next + Max(room, 0))
    decreases t, 3
  {
    hide At, Len, Writable, WriteResult, Ser, FormatsFit, Holds;
    r := ToEvioBuffer(buf, next, n, room - 1, t, S);
    if r.Ok? {
      AtExtend(old(buf[..]), buf[..], next, next + Max(room, 0), at, done, Ser(t, BankTypeOf(n)));
      if r.value > room {
        r := Err(TooSmall);
      }
    }
  }

  lemma PendingAll(n: DomNode, t: Node, S: set<DomNode>)
    requires Holds(n, t, S) && FormatsFit(t) && t.Container?
    ensures n.body == ContainerBody(t.ctype) && Pending(n, n.childList, t.kids, S)
  {
  }

  lemma NothingAt(b: seq<u32>, off: nat)
    requires off <= |b|
    ensures At(b, off, [])
  {
  }

  /** The loop over the children of container `n`, whose header is in place. */
  method WriteKids(buf: array<u32>, off: nat, n: DomNode, hl: nat, size: int, ghost t: Node, ghost S: set<DomNode>)
    returns (r: Result<nat, WriteError>)
    requires Holds(n, t, S) && FormatsFit(t) && t.Container? && 1 <= hl <= 2
    requires 0 < size < MAX_WORDS && off + Max(size, hl) <= buf.Length
    modifies buf
    ensures r == WriteKidsResult(t.kids, t.ctype, hl, size)
    ensures r.Ok? ==> WritableKids(t.kids, t.ctype) && r.value == hl + LenKids(t.kids, t.ctype)
                      && At(buf[..], off + hl, SerKids(t.kids, t.ctype))
    ensures SameOutside(old(buf[..]), buf[..], off + hl, off + Max(size, hl))
    decreases t, 0
  {
    hide At, PayloadLen, Len, Writable, WriteResult, Ser, FormatsFit, Holds, WriteKidsResult, WritableKids, SerKids;
    hide Progress, SameOutside, Pending, HoldsKids, FormatsFitKids, BankTypeOf;
    PendingAll(n, t, S);
    ghost var kids, ct := t.kids, t.ctype;
    var iter, pos: nat := n.childList, hl;
    ghost var done: seq<u32> := [];
    NothingAt(buf[..], off + hl);
    ProgressStart(kids, ct, hl, size);
    SameOutsideSelf(buf[..], off + hl, off + Max(size, hl));
    while iter != []
      invariant Pending(n, iter, kids, S)
      invariant Progress(t.kids, ct, hl, size, kids, pos, done) && pos == hl + |done|
      invariant |kids| <= |t.kids| && kids == t.kids[|t.kids| - |kids|..]
      invariant At(buf[..], off + hl, done) && (pos <= size || pos == hl)
      invariant SameOutside(old(buf[..]), buf[..], off + hl, off + Max(size, hl))
      decreases |iter|
    {
      PendingStep(n, iter, kids, S);
      ProgressFails(t.kids, ct, hl, size, kids, pos, done);
      ghost var before := buf[..];
      r := WriteKid(buf, off + hl, pos - hl, iter[0], off + pos, size - pos, kids[0], S, done);
      SameOutsideBoth(old(buf[..]), before, buf[..], off + hl, off + Max(size, hl), off + pos,
          off + pos + Max(size - pos, 0));
      if r.Err? {
        return;
      }
      ProgressStep(t.kids, ct, hl, size, kids, pos, done);
      done, pos := done + Ser(kids[0], ct), pos + r.value;
      iter, kids := iter[1..], kids[1..];
    }
    PendingStep(n, iter, kids, S);
    ProgressDone(t.kids, ct, hl, size, pos, done);
    r := Ok(pos);
  }

  // ----- the length predictor -----

  /** Bytes of a string list with its terminators. */
  method CountText(ss: seq<seq<u8>>) returns (n: nat)
    ensures n == |Join(ss)|
  {
    n := 0;
    for i := 0 to |ss|
      invariant n == |Join(ss[..i])| - i
    {
      JoinAppend(ss[..i], ss[i]);
      assert ss[..i] + [ss[i]] == ss[..i + 1];
      n := n + |ss[i]|;
    }
    assert ss[..|ss|] == ss;
    n := n + |ss|;
  }

  method GetSerializedLength(n: DomNode, ghost t: Node, ghost S: set<DomNode>) returns (r: Result<nat, WriteError>)
    requires Holds(n, t, S)
    requires n.parent != null ==> n.parent.body.ContainerBody?
    ensures r == PredictedLen(t, BankTypeOf(n))
    decreases t
  {
    var len: nat := BankTypeOf(n).HeaderLen();
    if n.body.ContainerBody? && n.body.IsContainer() {
      ghost var kids := t.kids;
      var iter := n.childList;
      while iter != []
        invariant HoldsKids(n, iter, kids, S) && |kids| <= |t.kids| && kids == t.kids[|t.kids| - |kids|..]
        invariant PredictedLen(t, BankTypeOf(n)) == PredictedKidsLen(kids, t.ctype, len)
        decreases |iter|
      {
        var kid := GetSerializedLength(iter[0], kids[0], S);
        if kid.Err? {
          return kid;
        }
        len := len + kid.value;
        iter, kids := iter[1..], kids[1..];
      }
      return Ok(len);
    } else if n.body.ContainerBody? || n.body.payload.Composite? {
      return Err(IllegalLeaf);
    } else {
      match n.body.payload
      case Words32(_, ws) => return Ok(len + |ws|);
      case Text(ss) =>
        var ndata := CountText(ss);
        return Ok(len + (ndata + 3) / 4);
      case Words16(_, hs) => return Ok(len + (|hs| + 1) / 2);
      case Words8(_, bs) => return Ok(len + (|bs| + 3) / 4);
      case Words64(_, qs) => return Ok(len + |qs| * 2);
    }
  }
}

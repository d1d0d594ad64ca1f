/** How EvioTool reads the leaf types that are not four bytes wide, as the tree writer lays them out. */
module ToolTypes {
  import opened Words
  import opened EvioTree
  import RoundTrip = EvioRoundTrip
  import opened ToolFill
  import opened ToolRouting
  import Fadc

  // ----- counts in words for data of another size -----

  /** Two-byte data comes through if and only if there is at most one value: the count passed is
      that of the words. */
  lemma ShortsComeThrough(w: seq<u32>, base: nat, p: Payload, padding: nat, tag: u16, crate: u16)
    requires p.Words16? && PayloadLen(p) < MAX_WORDS && At(w, base, PayloadWords(p))
    ensures base + PayloadLen(p) <= |w|
    ensures LeafItems(w, base, PayloadLen(p), p.Code(), padding, tag, crate) == Ok(ItemsHalf(p.halves)) <==>
            |p.halves| <= 1
  {
    PayloadWordsLen(p);
    var n := PayloadLen(p);
    RoundTrip.HalvesRead(w, base, p.halves);
    assert |ItemsHalf(Halves(w, base, n))| == n;
    if |p.halves| <= 1 {
      assert n == |p.halves|;
    }
  }

  /** One-byte data likewise. */
  lemma BytesComeThrough(w: seq<u32>, base: nat, p: Payload, padding: nat, tag: u16, crate: u16)
    requires p.Words8? && PayloadLen(p) < MAX_WORDS && At(w, base, PayloadWords(p))
    ensures base + PayloadLen(p) <= |w|
    ensures LeafItems(w, base, PayloadLen(p), p.Code(), padding, tag, crate) == Ok(ItemsChar(p.bytes)) <==>
            |p.bytes| <= 1
  {
    PayloadWordsLen(p);
    var n := PayloadLen(p);
    RoundTrip.BytesRead(w, base, p.bytes);
    assert |ItemsChar(Bytes(w, 4 * base, n))| == n;
    if |p.bytes| <= 1 {
      assert n == |p.bytes|;
    }
  }

  /** Eight-byte data only when there is none: the reader takes twice as many values as are there,
      or four times as many doubles. */
  lemma QuadsComeThrough(w: seq<u32>, base: nat, p: Payload, tag: u16, crate: u16)
    requires p.Words64? && PayloadLen(p) < MAX_WORDS && At(w, base, PayloadWords(p))
    ensures base + PayloadLen(p) <= |w|
    ensures LeafItems(w, base, PayloadLen(p), p.Code(), p.Padding(), tag, crate) == Ok(ItemsLong(p.quads)) <==>
            p.quads == []
  {
    PayloadWordsLen(p);
    var n := PayloadLen(p);
    var count := if p.Code() == 0x8 then 2 * n else n;
    assert LeafItems(w, base, n, p.Code(), p.Padding(), tag, crate) == LongItems(w, base, count);
    if base + 2 * count <= |w| {
      assert |ItemsLong(Quads(w, base, count))| == count;
    }
    if p.quads == [] {
      assert Quads(w, base, 0) == [];
    }
  }

  /** How many eight-byte values are taken, and which: as many as there are words, of doubles twice as many less
      half the padding, the lower word first. */
  lemma QuadsTaken(w: seq<u32>, base: nat, n: nat, code: u8, padding: nat, tag: u16, crate: u16, i: nat)
    requires base + n <= |w| && 8 <= code <= 10 && padding < 4
    ensures var count := if code == 8 then 2 * n - padding / 2 else n;
            var r := LeafItems(w, base, n, code, padding, tag, crate);
            && (r.Ok? <==> 0 <= count && base + 2 * count <= |w|)
            && (r.Ok? ==> |r.value| == count)
            && (r.Ok? && i < count ==>
                  r.value[i] == Long(w[base + 2 * i] as int + 4294967296 * w[base + 2 * i + 1] as int))
  {
    var count := if code == 8 then 2 * n - padding / 2 else n;
    assert LeafItems(w, base, n, code, padding, tag, crate) == LongItems(w, base, count);
  }

  // ----- text -----

  lemma {:induction false} JoinEnds(ss: seq<seq<u8>>)
    ensures ss != [] ==> Join(ss) != [] && Join(ss)[|Join(ss)| - 1] == 0
  {
    if ss != [] {
      JoinEnds(ss[1..]);
    }
  }

  /** Text is read as its printable runs, and so as the strings it was written from exactly if these are
      non-empty and printable. */
  lemma TextComesThrough(w: seq<u32>, base: nat, p: Payload, tag: u16, crate: u16)
    requires p.Text? && PayloadLen(p) < MAX_WORDS && At(w, base, PayloadWords(p)) && EOT !in Join(p.strings)
    ensures base + PayloadLen(p) <= |w|
    ensures LeafItems(w, base, PayloadLen(p), p.Code(), 0, tag, crate) == Ok(ItemsStr(Runs(Join(p.strings))))
    ensures Runs(Join(p.strings)) == p.strings <==> RunsFit(p.strings)
  {
    hide Join, Bytes, PackBytes, ReadRuns, Runs, RunsFit;
    PayloadWordsLen(p);
    var text := Join(p.strings);
    var ps := Padded(text, EOT);
    var b := Bytes(w, 4 * base, 4 * (|w| - base));
    BytesAt(w, base, ps);
    RoundTrip.BytesPrefix(w, 4 * base, |ps|, |b|);
    JoinEnds(p.strings);
    JoinNone();
    LinesRead(b, text, PadCount(|text|));
    RunsRead(b, p.strings, PadCount(|text|));
    assert 4 * PayloadLen(p) == |ps|;
  }

  lemma JoinNone()
    ensures Join([]) == []
  {
  }

  // ----- composite leaves -----

  /** Bytes of the data bank of a composite leaf, with the filler that rounds them up to words. */
  function DataBytes(slots: seq<Fadc.Slot>, tag: u16, filler: seq<u8>): seq<u8>
    requires Fadc.SlotsFit(slots, tag)
  {
    Fadc.Encode(slots, tag) + filler
  }

  /** A composite leaf whose data is a list of slot records, padded by any 0 to 3 bytes to whole
      words, is read as exactly the entries of those records. */
  lemma {:induction false} CompositeComesThrough(w: seq<u32>, base: nat, n: nat, p: Payload, padding: nat,
      slots: seq<Fadc.Slot>, filler: seq<u8>, tag: u16, crate: u16)
    requires p.Composite? && p.FormatFits() && PayloadLen(p) < MAX_WORDS && base + n <= |w|
    requires Fadc.Known(tag) && Fadc.SlotsFit(slots, tag) && |filler| <= 3
    requires |DataBytes(slots, tag, filler)| % 4 == 0 && p.data == PackBytes(DataBytes(slots, tag, filler))
    requires At(w, base, PayloadWords(p))
    ensures LeafItems(w, base, n, p.Code(), padding, tag, crate)
            == Ok(ItemsPulse(Fadc.DecodedSlots(slots, crate % 0x100)))
  {
    hide PayloadWords, PackBytes, Bytes, At, Fadc.Records, Fadc.Encode, Fadc.DecodedSlots, FormatWords;
    RoundTrip.CompositeLayout(w, base, p);
    var start := base + 3 + FormatWords(p.format);
    var data := DataBytes(slots, tag, filler);
    var b := Bytes(w, 4 * start, 4 * (|w| - start));
    assert At(w, start, p.data) by { RoundTrip.CompositeParts(w, base, p); }
    BytesAt(w, start, data);
    RoundTrip.BytesPrefix(w, 4 * start, |data|, |b|);
    assert At(b, 0, data) by { PrefixAt(b, data); }
    AtSplit(b, 0, Fadc.Encode(slots, tag), filler);
    Fadc.RecordsRead(b, 0, slots, tag, crate % 0x100, |filler|);
    assert |p.data| * 4 == |data|;
    assert Fadc.Signed(w[base + 1 + FormatWords(p.format)]) - 1 == |p.data|;
  }

  /** Such a leaf is clear: in an event, the leaf booked for it gets exactly the entries of its slot
      records. */
  lemma CompositeIsClear(p: Payload, slots: seq<Fadc.Slot>, filler: seq<u8>, tag: u16, crate: u16)
    requires p.Composite? && PayloadLen(p) < MAX_WORDS
    requires Fadc.Known(tag) && Fadc.SlotsFit(slots, tag) && |filler| <= 3
    requires |DataBytes(slots, tag, filler)| % 4 == 0 && p.data == PackBytes(DataBytes(slots, tag, filler))
    ensures TreeItems(p, tag, crate) == ItemsPulse(Fadc.DecodedSlots(slots, crate % 0x100))
    ensures Unclear !in TreeItems(p, tag, crate)
  {
    hide PackBytes, Bytes, At, Fadc.Records, Fadc.Encode, Fadc.DecodedSlots;
    var data := DataBytes(slots, tag, filler);
    assert At(p.data, 0, p.data) by { PrefixAt(p.data, p.data); }
    BytesAt(p.data, 0, data);
    assert At(data, 0, data) by { PrefixAt(data, data); }
    AtSplit(data, 0, Fadc.Encode(slots, tag), filler);
    Fadc.RecordsRead(data, 0, slots, tag, crate % 0x100, |filler|);
  }

  lemma PrefixAt(b: seq<int>, d: seq<int>)
    requires |d| <= |b| && b[..|d|] == d
    ensures At(b, 0, d)
  {
  }
}

/** The SVT bank: frames of four-word blocks, walked with one index. */
module SvtFrames {
  import opened Words

  /** A block is read where it lies, whatever it turns out to be. */
  datatype Fault = Overrun

  function EventSize(block: seq<u32>): nat
    requires |block| == 4
  {
    block[3] / 0x100 % 0x10_0000
  }

  predicate IsTail(block: seq<u32>) requires |block| == 4 { block[3] / 0x2000_0000 % 2 == 1 }

  predicate IsHeader(block: seq<u32>) requires |block| == 4 { block[3] / 0x4000_0000 % 2 == 1 }

  predicate IsSample(block: seq<u32>) requires |block| == 4 { !IsTail(block) && !IsHeader(block) }

  /** What a walk finds: multisamples, frame headers, first words of frame tails; and how often the raw
      data is stored. */
  datatype Found = Found(samples: seq<seq<u32>>, headers: seq<seq<u32>>, tails: seq<u32>, rounds: nat)

  /** 32-bit unsigned arithmetic: a frame of less than four words ends before it begins, or, near
      the front of the data, far behind its end. */
  function FrameEnd(dat: seq<u32>, i: nat): nat
    requires i + 4 <= |dat|
  {
    (i + EventSize(dat[i..i + 4]) / 4 - 4) % 0x1_0000_0000
  }

  /** The inner loop: the multisamples from `i` on, and the index it stops at. */
  function Samples(dat: seq<u32>, i: nat, end: nat): (r: Result<(seq<seq<u32>>, nat), Fault>)
    ensures r.Ok? ==> r.value.1 >= i
    decreases |dat| - i
  {
    if i >= end then Ok(([], i))
    else if i + 4 > |dat| then Err(Overrun)
    else
      var rest :- Samples(dat, i + 4, end);
      var block := dat[i..i + 4];
      Ok((if IsSample(block) then [block] + rest.0 else rest.0, rest.1))
  }

  /** The outer loop from `i` on. */
  function Walk(dat: seq<u32>, i: nat): Result<Found, Fault>
    requires |dat| >= 1
    decreases |dat| - i
  {
    if i >= |dat| - 1 then Ok(Found([], [], [], 0))
    else if i + 4 > |dat| then Err(Overrun)
    else
      var inner :- Samples(dat, i + 4, FrameEnd(dat, i));
      var j := inner.1;
      if j + 4 > |dat| then Err(Overrun)
      else
        var rest :- Walk(dat, j + 4);
        Ok(Found(inner.0 + rest.samples, [dat[i..i + 4]] + rest.headers, [dat[j]] + rest.tails, 1 + rest.rounds))
  }

  // ----- well-framed data -----

  datatype Frame = Frame(head: seq<u32>, blocks: seq<seq<u32>>, tail: seq<u32>)

  predicate FrameOk(f: Frame) {
    && |f.head| == 4 && |f.tail| == 4 && (forall i :: 0 <= i < |f.blocks| ==> |f.blocks[i]| == 4)
    && EventSize(f.head) == 16 * (|f.blocks| + 2)
  }

  predicate FramesOk(fs: seq<Frame>) { forall i :: 0 <= i < |fs| ==> FrameOk(fs[i]) }

  function Joined(blocks: seq<seq<u32>>): (ws: seq<u32>)
    requires forall i :: 0 <= i < |blocks| ==> |blocks[i]| == 4
    ensures |ws| == 4 * |blocks|
  {
    if blocks == [] then [] else blocks[0] + Joined(blocks[1..])
  }

  function FrameWords(f: Frame): (ws: seq<u32>)
    requires FrameOk(f)
    ensures |ws| == 4 * (|f.blocks| + 2)
  {
    f.head + Joined(f.blocks) + f.tail
  }

  function AllWords(fs: seq<Frame>): seq<u32>
    requires FramesOk(fs)
  {
    if fs == [] then [] else FrameWords(fs[0]) + AllWords(fs[1..])
  }

  /** The blocks that are neither header nor tail. */
  function Plain(blocks: seq<seq<u32>>): seq<seq<u32>>
    requires forall i :: 0 <= i < |blocks| ==> |blocks[i]| == 4
  {
    if blocks == [] then []
    else if IsSample(blocks[0]) then [blocks[0]] + Plain(blocks[1..])
    else Plain(blocks[1..])
  }

  function Contents(fs: seq<Frame>): Found
    requires FramesOk(fs)
  {
    if fs == [] then Found([], [], [], 0)
    else
      var rest := Contents(fs[1..]);
      Found(Plain(fs[0].blocks) + rest.samples, [fs[0].head] + rest.headers, [fs[0].tail[0]] + rest.tails,
          1 + rest.rounds)
  }

  lemma {:induction false} BlocksRead(dat: seq<u32>, i: nat, blocks: seq<seq<u32>>)
    requires (forall k :: 0 <= k < |blocks| ==> |blocks[k]| == 4) && At(dat, i, Joined(blocks))
    ensures Samples(dat, i, i + 4 * |blocks|) == Ok((Plain(blocks), i + 4 * |blocks|))
    decreases |blocks|
  {
    hide At, IsSample;
    if blocks != [] {
      AtSplit(dat, i, blocks[0], Joined(blocks[1..]));
      AtSlice(dat, i, blocks[0]);
      BlocksRead(dat, i + 4, blocks[1..]);
    }
  }

  lemma AtSlice(dat: seq<u32>, i: nat, ws: seq<u32>)
    requires At(dat, i, ws)
    ensures i + |ws| <= |dat| && dat[i..i + |ws|] == ws
  {
  }

  /** On well-framed data the loops read each frame's header and tail exactly once, store exactly the
      plain multisamples in order, and end at the trailing word. */
  lemma {:induction false} FramesRead(dat: seq<u32>, i: nat, fs: seq<Frame>)
    requires FramesOk(fs) && At(dat, i, AllWords(fs)) && i + |AllWords(fs)| == |dat| - 1 && |dat| < 0x8000_0000
    ensures Walk(dat, i) == Ok(Contents(fs))
    decreases |fs|
  {
    hide At, Samples, Plain, Joined;
    if fs != [] {
      var f := fs[0];
      var j := i + 4 + 4 * |f.blocks|;
      AtSplit(dat, i, FrameWords(f), AllWords(fs[1..]));
      FrameRead(dat, i, f);
      FramesRead(dat, j + 4, fs[1..]);
    }
  }

  lemma FrameRead(dat: seq<u32>, i: nat, f: Frame)
    requires FrameOk(f) && At(dat, i, FrameWords(f)) && |dat| < 0x8000_0000
    ensures var j := i + 4 + 4 * |f.blocks|;
            && j + 4 <= |dat| && dat[i..i + 4] == f.head && dat[j] == f.tail[0] && FrameEnd(dat, i) == j
            && Samples(dat, i + 4, j) == Ok((Plain(f.blocks), j))
  {
    hide At, Samples, Plain, Joined, EventSize;
    var j := i + 4 + 4 * |f.blocks|;
    AtSplit(dat, i, f.head + Joined(f.blocks), f.tail);
    AtSplit(dat, i, f.head, Joined(f.blocks));
    AtSlice(dat, i, f.head);
    AtIndex(dat, j, f.tail, 0);
    AtSlice(dat, j, f.tail);
    BlocksRead(dat, i + 4, f.blocks);
  }

  lemma {:induction false} WellFramed(first: u32, fs: seq<Frame>, last: u32)
    requires FramesOk(fs) && |AllWords(fs)| < 0x7fff_fff0
    ensures Walk([first] + AllWords(fs) + [last], 1) == Ok(Contents(fs))
  {
    var ws: seq<u32> := AllWords(fs);
    var dat: seq<u32> := [first] + ws + [last];
    assert dat[1..1 + |ws|] == ws;
    FramesRead(dat, 1, fs);
  }

  // ----- frames packed field by field -----

  /** The word a multisample ends with; bit 29 marks a tail, bit 30 a header. */
  datatype SampleHead = SampleHead(rce: u8, feb: u8, channel: nat, apv: nat, hybrid: nat,
                                   readError: bool, tail: bool, header: bool, filter: bool)

  datatype Sample = Sample(w0: u32, w1: u32, w2: u32, head: SampleHead)

  /** A frame: three words and the size word with its mark, multisamples, and a tail. */
  datatype Packed = Packed(w0: u32, w1: u32, w2: u32, rce: u8, mark: nat, samples: seq<Sample>, tail: seq<u32>)

  predicate SampleOk(s: Sample) { s.head.channel < 0x80 && s.head.apv < 8 && s.head.hybrid < 4 }

  predicate SamplesOk(ss: seq<Sample>) { forall i :: 0 <= i < |ss| ==> SampleOk(ss[i]) }

  /** The size of a frame in bytes has 20 bits. */
  predicate PackedOk(f: Packed) {
    f.mark < 0x10 && |f.tail| == 4 && SamplesOk(f.samples) && 16 * (|f.samples| + 2) < 0x10_0000
  }

  predicate AllPackedOk(fs: seq<Packed>) { forall i :: 0 <= i < |fs| ==> PackedOk(fs[i]) }

  function Bit(b: bool): nat { if b then 1 else 0 }

  function HeadWord(h: SampleHead): u32
    requires h.channel < 0x80 && h.apv < 8 && h.hybrid < 4
  {
    h.rce + h.feb * 0x100 + h.channel * 0x1_0000 + h.apv * 0x80_0000 + h.hybrid * 0x400_0000
    + Bit(h.readError) * 0x1000_0000 + Bit(h.tail) * 0x2000_0000 + Bit(h.header) * 0x4000_0000
    + Bit(h.filter) * 0x8000_0000
  }

  function Block(s: Sample): seq<u32>
    requires SampleOk(s)
  {
    [s.w0, s.w1, s.w2, HeadWord(s.head)]
  }

  function Blocks(ss: seq<Sample>): (bs: seq<seq<u32>>)
    requires SamplesOk(ss)
    ensures |bs| == |ss| && forall i :: 0 <= i < |bs| ==> |bs[i]| == 4
  {
    if ss == [] then [] else [Block(ss[0])] + Blocks(ss[1..])
  }

  function FrameOf(f: Packed): Frame
    requires PackedOk(f)
  {
    var size := 16 * (|f.samples| + 2);
    Frame([f.w0, f.w1, f.w2, f.rce + size * 0x100 + f.mark * 0x1000_0000], Blocks(f.samples), f.tail)
  }

  function FramesOf(fs: seq<Packed>): (r: seq<Frame>)
    requires AllPackedOk(fs)
    ensures |r| == |fs| && FramesOk(r)
  {
    if fs == [] then []
    else
      SizeRead(fs[0]);
      [FrameOf(fs[0])] + FramesOf(fs[1..])
  }

  /** The blocks of the multisamples marked neither as tail nor as header. */
  function Kept(ss: seq<Sample>): seq<seq<u32>>
    requires SamplesOk(ss)
  {
    if ss == [] then []
    else (if !ss[0].head.tail && !ss[0].head.header then [Block(ss[0])] else []) + Kept(ss[1..])
  }

  function AllKept(fs: seq<Packed>): seq<seq<u32>>
    requires AllPackedOk(fs)
  {
    if fs == [] then [] else Kept(fs[0].samples) + AllKept(fs[1..])
  }

  /** The flags stand where the word has them, whatever the other fields hold. */
  lemma {:induction false} FlagsRead(s: Sample)
    requires SampleOk(s)
    ensures IsTail(Block(s)) == s.head.tail && IsHeader(Block(s)) == s.head.header
  {
    var h, w := s.head, HeadWord(s.head);
    var low := h.rce + h.feb * 0x100 + h.channel * 0x1_0000 + h.apv * 0x80_0000 + h.hybrid * 0x400_0000
               + Bit(h.readError) * 0x1000_0000;
    assert low < 0x2000_0000;
    assert w / 0x2000_0000 == Bit(h.tail) + 2 * Bit(h.header) + 4 * Bit(h.filter);
    assert w / 0x4000_0000 == Bit(h.header) + 2 * Bit(h.filter);
  }

  lemma {:induction false} KeptArePlain(ss: seq<Sample>)
    requires SamplesOk(ss)
    ensures Plain(Blocks(ss)) == Kept(ss)
  {
    hide IsTail, IsHeader, HeadWord;
    if ss != [] {
      FlagsRead(ss[0]);
      KeptArePlain(ss[1..]);
    }
  }

  lemma SizeRead(f: Packed)
    requires PackedOk(f)
    ensures FrameOk(FrameOf(f)) && EventSize(FrameOf(f).head) == 16 * (|f.samples| + 2)
  {
    hide Blocks;
    var size := 16 * (|f.samples| + 2);
    assert (f.rce + size * 0x100 + f.mark * 0x1000_0000) / 0x100 == size + f.mark * 0x10_0000;
  }

  lemma {:induction false} PackedContents(fs: seq<Packed>)
    requires AllPackedOk(fs)
    ensures Contents(FramesOf(fs)).samples == AllKept(fs) && Contents(FramesOf(fs)).rounds == |fs|
  {
    hide FrameOk, FrameOf;
    if fs != [] {
      SizeRead(fs[0]);
      KeptArePlain(fs[0].samples);
      PackedContents(fs[1..]);
      FrameBlocks(fs[0]);
    }
  }

  lemma FrameBlocks(f: Packed)
    requires PackedOk(f)
    ensures FrameOf(f).blocks == Blocks(f.samples)
  {
  }

  /** Of frames packed field by field, exactly the multisamples marked neither as tail nor as header are
      stored, in order. */
  lemma {:induction false} PackedFramesRead(first: u32, fs: seq<Packed>, last: u32)
    requires AllPackedOk(fs) && |AllWords(FramesOf(fs))| < 0x7fff_fff0
    ensures var r := Walk([first] + AllWords(FramesOf(fs)) + [last], 1);
            r.Ok? && r.value.samples == AllKept(fs) && r.value.rounds == |fs|
  {
    hide Walk, AllWords, Contents, AllKept, FramesOk;
    PackedContents(fs);
    WellFramed(first, FramesOf(fs), last);
  }

  // ----- the bank -----

  class SvtBank {
    var svtData: seq<seq<u32>>
    var svtHeaders: seq<seq<u32>>
    var svtTails: seq<u32>
    var rawLeaf: seq<u32>
    var storeRaw: bool
    var saveHeaders: bool

    constructor (storeRaw: bool, saveHeaders: bool)
      ensures svtData == [] && svtHeaders == [] && svtTails == [] && rawLeaf == []
      ensures this.storeRaw == storeRaw && this.saveHeaders == saveHeaders
    {
      svtData, svtHeaders, svtTails, rawLeaf := [], [], [], [];
      this.storeRaw, this.saveHeaders := storeRaw, saveHeaders;
    }

    /** What a walk that comes to an end leaves in the bank: the raw data once for each frame. */
    twostate predicate Stored(dat: seq<u32>, f: Found)
      reads this
    {
      && svtData == old(svtData) + f.samples
      && svtHeaders == old(svtHeaders) + (if saveHeaders then f.headers else [])
      && svtTails == old(svtTails) + (if saveHeaders then f.tails else [])
      && rawLeaf == old(rawLeaf) + (if storeRaw then Times(dat, f.rounds) else [])
      && storeRaw == old(storeRaw) && saveHeaders == old(saveHeaders)
    }

    /** The inner loop, which advances the index of the outer one. */
    method PushSamples(dat: seq<u32>, start: nat, frameEnd: nat) returns (fault: Option<Fault>, i: nat)
      modifies this`svtData
      ensures match Samples(dat, start, frameEnd)
              case Ok(r) => fault == None && i == r.1 && svtData == old(svtData) + r.0
              case Err(e) => fault == Some(e)
      ensures i >= start
    {
      i := start;
      ghost var samples: seq<seq<u32>> := [];
      OnwardMore([], [], Samples(dat, start, frameEnd));
      while i < frameEnd
        invariant i >= start && svtData == old(svtData) + samples
        invariant Samples(dat, start, frameEnd) == Onward(samples, Samples(dat, i, frameEnd))
        decreases |dat| - i
      {
        if i + 4 > |dat| {
          return Some(Overrun), i;
        }
        var block := dat[i..i + 4];
        OnwardMore(samples, [block], Samples(dat, i + 4, frameEnd));
        if !IsTail(block) && !IsHeader(block) {
          svtData := svtData + [block];
          samples := samples + [block];
        }
        i := i + 4;
      }
      fault := None;
    }

    /** One turn of the outer loop. */
    method PushFrame(dat: seq<u32>, i: nat) returns (fault: Option<Fault>, j: nat, ghost one: Found)
      requires 1 <= i < |dat| - 1
      modifies this
      ensures fault == None ==> j > i && Walk(dat, i) == Prepend(one, Walk(dat, j)) && Stored(dat, one)
      ensures fault.Some? ==> Walk(dat, i) == Err(fault.value)
    {
      hide Samples, EventSize, Walk, Prepend, Times;
      WalkFrame(dat, i);
      TimesOne(dat);
      j, one := i, Found([], [], [], 0);
      if i + 4 > |dat| {
        return Some(Overrun), j, one;
      }
      var head := dat[i..i + 4];
      if saveHeaders {
        svtHeaders := svtHeaders + [head];
      }
      var frameEnd := (i + EventSize(head) / 4 - 4) % 0x1_0000_0000;
      fault, j := PushSamples(dat, i + 4, frameEnd);
      if fault != None {
        return;
      }
      if j + 4 > |dat| {
        return Some(Overrun), j, one;
      }
      if saveHeaders {
        svtTails := svtTails + [dat[j]];
      }
      if storeRaw {
        rawLeaf := rawLeaf + dat;
      }
      one := Found(Samples(dat, i + 4, frameEnd).value.0, [head], [dat[j]], 1);
      j := j + 4;
    }

    method PushDataArray(dat: seq<u32>) returns (fault: Option<Fault>)
      requires 1 <= |dat| < 0x8000_0000
      modifies this
      ensures match Walk(dat, 1) case Ok(f) => fault == None && Stored(dat, f) case Err(e) => fault == Some(e)
      ensures fault == None ==>
        && Walk(dat, 1).Ok? &&
        var f := Walk(dat, 1).value;
        && svtData == old(svtData) + f.samples
        && svtHeaders == old(svtHeaders) + (if saveHeaders then f.headers else [])
        && svtTails == old(svtTails) + (if saveHeaders then f.tails else [])
        && (!storeRaw ==> rawLeaf == old(rawLeaf))
        && (storeRaw ==> |rawLeaf| == |old(rawLeaf)| + f.rounds * |dat|)
        && storeRaw == old(storeRaw) && saveHeaders == old(saveHeaders)
    {
      hide Walk, Prepend, Times;
      var i := 1;
      ghost var found := Found([], [], [], 0);
      PrependNone(Walk(dat, 1));
      TimesOne(dat);
      while i < |dat| - 1
        invariant i >= 1 && Stored(dat, found)
        invariant Walk(dat, 1) == Prepend(found, Walk(dat, i))
        decreases |dat| - i
      {
        ghost var one;
        var next;
        fault, next, one := PushFrame(dat, i);
        if fault != None {
          PrependErr(found, fault.value);
          return;
        }
        PrependMore(found, one, Walk(dat, next));
        TimesMore(dat, found.rounds, one.rounds);
        found, i := Both(found, one), next;
      }
      WalkEnd(dat, i, found);
      TimesLength(dat, found.rounds);
      fault := None;
    }
  }

  lemma PrependErr(f: Found, e: Fault)
    ensures Prepend(f, Err(e)) == Err(e)
  {
  }

  lemma TimesOne(dat: seq<u32>)
    ensures Times(dat, 0) == [] && Times(dat, 1) == dat
  {
    assert Times(dat, 1) == [] + dat;
  }

  lemma {:induction false} TimesLength(dat: seq<u32>, n: nat)
    ensures |Times(dat, n)| == n * |dat|
  {
    if n > 0 {
      TimesLength(dat, n - 1);
    }
  }

  lemma WalkEnd(dat: seq<u32>, i: nat, found: Found)
    requires |dat| >= 1 && i >= |dat| - 1
    ensures Prepend(found, Walk(dat, i)) == Ok(found)
  {
    assert found.samples + [] == found.samples && found.headers + [] == found.headers
        && found.tails + [] == found.tails;
  }

  /** A frame's walk in one step. */
  lemma WalkFrame(dat: seq<u32>, i: nat)
    requires 1 <= i < |dat| - 1
    ensures i + 4 > |dat| ==> Walk(dat, i) == Err(Overrun)
    ensures i + 4 <= |dat| ==>
      match Samples(dat, i + 4, FrameEnd(dat, i))
      case Err(e) => Walk(dat, i) == Err(e)
      case Ok(r) =>
        if r.1 + 4 > |dat| then Walk(dat, i) == Err(Overrun)
        else Walk(dat, i) == Prepend(Found(r.0, [dat[i..i + 4]], [dat[r.1]], 1), Walk(dat, r.1 + 4))
  {
    hide Samples, EventSize;
  }

  lemma {:induction false} TimesMore(dat: seq<u32>, m: nat, n: nat)
    ensures Times(dat, m + n) == Times(dat, m) + Times(dat, n)
    decreases n
  {
    if n > 0 {
      TimesMore(dat, m, n - 1);
    }
  }

  /** Samples found already, in front of the rest. */
  function Onward(samples: seq<seq<u32>>, r: Result<(seq<seq<u32>>, nat), Fault>): Result<(seq<seq<u32>>, nat), Fault> {
    match r
    case Err(e) => Err(e)
    case Ok(p) => Ok((samples + p.0, p.1))
  }

  lemma OnwardMore(a: seq<seq<u32>>, b: seq<seq<u32>>, r: Result<(seq<seq<u32>>, nat), Fault>)
    ensures Onward(a, Onward(b, r)) == Onward(a + b, r) && Onward([], r) == r
  {
    if r.Ok? {
      assert a + (b + r.value.0) == a + b + r.value.0;
      assert [] + r.value.0 == r.value.0;
    }
  }

  function Times(dat: seq<u32>, n: nat): seq<u32> { if n == 0 then [] else Times(dat, n - 1) + dat }

  function Both(f: Found, g: Found): Found {
    Found(f.samples + g.samples, f.headers + g.headers, f.tails + g.tails, f.rounds + g.rounds)
  }

  function Prepend(f: Found, r: Result<Found, Fault>): Result<Found, Fault> {
    match r
    case Err(e) => Err(e)
    case Ok(g) => Ok(Both(f, g))
  }

  lemma PrependNone(r: Result<Found, Fault>)
    ensures Prepend(Found([], [], [], 0), r) == r
  {
    if r.Ok? {
      assert [] + r.value.samples == r.value.samples && [] + r.value.headers == r.value.headers
          && [] + r.value.tails == r.value.tails;
    }
  }

  lemma PrependMore(f: Found, g: Found, r: Result<Found, Fault>)
    ensures Prepend(f, Prepend(g, r)) == Prepend(Both(f, g), r)
  {
    if r.Ok? {
      var h := r.value;
      assert f.samples + (g.samples + h.samples) == f.samples + g.samples + h.samples;
      assert f.headers + (g.headers + h.headers) == f.headers + g.headers + h.headers;
      assert f.tails + (g.tails + h.tails) == f.tails + g.tails + h.tails;
    }
  }
}

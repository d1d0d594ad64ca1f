/** The composite-bank decoder for flash ADC data: slot records of three formats, told apart by
    the tag of the bank, one behind the other in a byte buffer. */
module Fadc {
  import opened Words

  const TAG_SAMPLES: u16 := 57601  // c,i,l,N(c,Ns)
  const TAG_VALUES: u16 := 57650   // c,i,l,Ni
  const TAG_PULSES: u16 := 57622   // c,i,l,N(c,s)

  /** A decoded entry; the fields a format does not have stay zero. */
  datatype FadcData = FadcData(crate: u8, slot: u8, chan: u8, trig: u32, reftime: u64, adc: u16, iAdc: u32,
      samples: seq<u16>)

  /** The source has no bounds check: `Overrun` stands for a read behind the buffer, `BadCount` for
      a negative number of samples. */
  datatype Fault = Overrun | BadCount

  // ----- GET_CHAR, GET_SHORT, GET_INT, GET_L64 -----

  function Short(b: seq<u8>, i: nat): u16
    requires i + 2 <= |b|
  {
    BytePair(b[i], b[i + 1])
  }

  function BytePair(lo: u8, hi: u8): u16 { lo + hi * 0x100 }

  function Int(b: seq<u8>, i: nat): u32
    requires i + 4 <= |b|
  {
    Word(b[i], b[i + 1], b[i + 2], b[i + 3])
  }

  function Long(b: seq<u8>, i: nat): u64
    requires i + 8 <= |b|
  {
    Quad(Int(b, i), Int(b, i + 4))
  }

  /** The C `int` with these bits. */
  function Signed(w: u32): int { if w < 0x8000_0000 then w else w - 0x1_0000_0000 }

  function Shorts(b: seq<u8>, i: nat, n: nat): (s: seq<u16>)
    requires i + 2 * n <= |b|
    ensures |s| == n
  {
    seq<u16>(n, k requires 0 <= k < n => Short(b, i + 2 * k))
  }

  // ----- the decoder -----

  /** The 13 bytes every slot record starts with. */
  datatype Stamp = Stamp(crate: u8, slot: u8, trig: u32, reftime: u64)

  const STAMP_LEN: nat := 13

  function StampAt(b: seq<u8>, i: nat, crate: u8): Stamp
    requires i + STAMP_LEN <= |b|
  {
    Stamp(crate, b[i], Int(b, i + 1), Long(b, i + 5))
  }

  /** One channel entry at `i`, and the index behind it. */
  function Entry(b: seq<u8>, i: nat, tag: u16, s: Stamp): (r: Result<(FadcData, nat), Fault>)
    ensures r.Ok? ==> i < r.value.1 <= |b|
  {
    if tag == TAG_SAMPLES then
      if i + 5 > |b| then Err(Overrun)
      else
        var n := Signed(Int(b, i + 1));
        if n < 0 then Err(BadCount)
        else if i + 5 + 2 * n > |b| then Err(Overrun)
        else Ok((FadcData(s.crate, s.slot, b[i], s.trig, s.reftime, 0, 0, Shorts(b, i + 5, n)), i + 5 + 2 * n))
    else if tag == TAG_VALUES then
      if i + 4 > |b| then Err(Overrun)
      else Ok((FadcData(s.crate, s.slot, 0, s.trig, s.reftime, 0, Int(b, i), []), i + 4))
    else
      if i + 3 > |b| then Err(Overrun)
      else Ok((FadcData(s.crate, s.slot, b[i], s.trig, s.reftime, Short(b, i + 1), 0, []), i + 3))
  }

  function Entries(b: seq<u8>, i: nat, n: int, tag: u16, s: Stamp): (r: Result<(seq<FadcData>, nat), Fault>)
    requires i <= |b|
    ensures r.Ok? ==> i <= r.value.1 <= |b|
    decreases n
  {
    if n <= 0 then Ok(([], i))
    else
      var (d, j) :- Entry(b, i, tag, s);
      var (ds, k) :- Entries(b, j, n - 1, tag, s);
      Ok(([d] + ds, k))
  }

  predicate Known(tag: u16) { tag in {TAG_SAMPLES, TAG_VALUES, TAG_PULSES} }

  /** Slot records from `i` on, until the index reaches `limit`. */
  function Records(b: seq<u8>, i: nat, limit: int, tag: u16, crate: u8): Result<seq<FadcData>, Fault>
    requires i <= |b|
    decreases |b| - i
  {
    if i >= limit then Ok([])
    else if i + STAMP_LEN > |b| then Err(Overrun)
    else if !Known(tag) then Records(b, i + STAMP_LEN, limit, tag, crate)
    else if i + STAMP_LEN + 4 > |b| then Err(Overrun)
    else
      var (ds, j) :- Entries(b, i + STAMP_LEN + 4, Signed(Int(b, i + STAMP_LEN)), tag, StampAt(b, i, crate));
      var rest :- Records(b, j, limit, tag, crate);
      Ok(ds + rest)
  }

  /** The loop over the channels of one slot; `i` and the returned `j` are the cursor. */
  method ReadEntries(b: seq<u8>, i: nat, n: int, tag: u16, s: Stamp) returns (r: Result<seq<FadcData>, Fault>, j: nat)
    requires i <= |b|
    ensures r == (if Entries(b, i, n, tag, s).Err? then Err(Entries(b, i, n, tag, s).error)
            else Ok(Entries(b, i, n, tag, s).value.0))
    ensures Entries(b, i, n, tag, s).Ok? ==> j == Entries(b, i, n, tag, s).value.1
  {
    hide Entry;
    j := i;
    var got: seq<FadcData> := [];
    assert forall more: seq<FadcData> :: got + more == more;
    var k := 0;
    while k < n
      invariant i <= j <= |b| && 0 <= k && (k <= n || n < 0)
      invariant Entries(b, i, n, tag, s) ==
                (var rest := Entries(b, j, n - k, tag, s);
                 if rest.Err? then rest else Ok((got + rest.value.0, rest.value.1)))
      decreases n - k
    {
      var e := Entry(b, j, tag, s);
      if e.Err? { return Err(e.error), j; }
      assert forall more: seq<FadcData> :: got + ([e.value.0] + more) == got + [e.value.0] + more;
      got, j, k := got + [e.value.0], e.value.1, k + 1;
    }
    assert got + [] == got;
    r := Ok(got);
  }

  /** The decoding loop, with the cursor `indx` the macros advance. */
  method Decode(b: seq<u8>, limit: int, tag: u16, crate: u8) returns (r: Result<seq<FadcData>, Fault>)
    ensures r == Records(b, 0, limit, tag, crate)
  {
    hide Entries, StampAt, Int, Signed;
    var indx: nat := 0;
    var data: seq<FadcData> := [];
    assert forall more: seq<FadcData> :: data + more == more;
    while indx < limit
      invariant indx <= |b|
      invariant Records(b, 0, limit, tag, crate) ==
                if Records(b, indx, limit, tag, crate).Err? then Records(b, indx, limit, tag, crate)
                else Ok(data + Records(b, indx, limit, tag, crate).value)
      decreases |b| - indx
    {
      if indx + STAMP_LEN > |b| { return Err(Overrun); }
      var stamp := StampAt(b, indx, crate);
      if Known(tag) {
        if indx + STAMP_LEN + 4 > |b| { return Err(Overrun); }
        var n := Signed(Int(b, indx + STAMP_LEN));
        var got, j := ReadEntries(b, indx + STAMP_LEN + 4, n, tag, stamp);
        if got.Err? { return got; }
        assert forall more: seq<FadcData> :: data + (got.value + more) == data + got.value + more;
        data, indx := data + got.value, j;
      } else {
        indx := indx + STAMP_LEN;
      }
    }
    assert data + [] == data;
    r := Ok(data);
  }

  // ----- the encoding it inverts -----

  function ShortBytes(h: u16): (b: seq<u8>) ensures |b| == 2 { [h % 0x100, h / 0x100] }

  function IntBytes(w: u32): (b: seq<u8>) ensures |b| == 4 { [ByteOf(w, 0), ByteOf(w, 1), ByteOf(w, 2), ByteOf(w, 3)] }

  function LongBytes(q: u64): (b: seq<u8>) ensures |b| == 8 { IntBytes(QuadLo(q)) + IntBytes(QuadHi(q)) }

  function ShortsBytes(hs: seq<u16>): (b: seq<u8>)
    ensures |b| == 2 * |hs|
  {
    if hs == [] then [] else ShortBytes(hs[0]) + ShortsBytes(hs[1..])
  }

  /** A channel entry: the fields its format carries. */
  datatype Channel =
    | Sampled(chan: u8, samples: seq<u16>)
    | Valued(value: u32)
    | Pulsed(chan: u8, adc: u16)

  datatype Slot = Slot(slot: u8, trig: u32, reftime: u64, channels: seq<Channel>)

  /** The channel has the format `tag` selects, and its count is a C `int`. */
  predicate ChannelFits(c: Channel, tag: u16) {
    match c
    case Sampled(_, ss) => tag == TAG_SAMPLES && |ss| < 0x8000_0000
    case Valued(_) => tag == TAG_VALUES
    case Pulsed(_, _) => tag == TAG_PULSES
  }

  predicate SlotFits(s: Slot, tag: u16) {
    |s.channels| < 0x8000_0000 && ChannelsFit(s.channels, tag)
  }

  predicate ChannelsFit(cs: seq<Channel>, tag: u16) { forall i :: 0 <= i < |cs| ==> ChannelFits(cs[i], tag) }

  predicate SlotsFit(slots: seq<Slot>, tag: u16) { forall i :: 0 <= i < |slots| ==> SlotFits(slots[i], tag) }

  function ChannelBytes(c: Channel): seq<u8>
    requires c.Sampled? ==> |c.samples| < 0x8000_0000
  {
    match c
    case Sampled(ch, ss) => [ch] + IntBytes(|ss|) + ShortsBytes(ss)
    case Valued(v) => IntBytes(v)
    case Pulsed(ch, a) => [ch] + ShortBytes(a)
  }

  function ChannelsBytes(cs: seq<Channel>, tag: u16): seq<u8>
    requires ChannelsFit(cs, tag)
  {
    if cs == [] then [] else ChannelBytes(cs[0]) + ChannelsBytes(cs[1..], tag)
  }

  function StampBytes(s: Slot): (b: seq<u8>)
    ensures |b| == STAMP_LEN
  {
    [s.slot] + IntBytes(s.trig) + LongBytes(s.reftime)
  }

  function Encode(slots: seq<Slot>, tag: u16): seq<u8>
    requires SlotsFit(slots, tag)
  {
    if slots == [] then []
    else
      StampBytes(slots[0]) + IntBytes(|slots[0].channels|) + ChannelsBytes(slots[0].channels, tag)
      + Encode(slots[1..], tag)
  }

  /** The entry a channel of slot `s` decodes to. */
  function Decoded(c: Channel, s: Stamp): FadcData {
    match c
    case Sampled(ch, ss) => FadcData(s.crate, s.slot, ch, s.trig, s.reftime, 0, 0, ss)
    case Valued(v) => FadcData(s.crate, s.slot, 0, s.trig, s.reftime, 0, v, [])
    case Pulsed(ch, a) => FadcData(s.crate, s.slot, ch, s.trig, s.reftime, a, 0, [])
  }

  function DecodedChannels(cs: seq<Channel>, s: Stamp): seq<FadcData> {
    if cs == [] then [] else [Decoded(cs[0], s)] + DecodedChannels(cs[1..], s)
  }

  function DecodedSlots(slots: seq<Slot>, crate: u8): seq<FadcData> {
    if slots == [] then []
    else
      DecodedChannels(slots[0].channels, Stamp(crate, slots[0].slot, slots[0].trig, slots[0].reftime))
      + DecodedSlots(slots[1..], crate)
  }

  // ----- round trip -----

  lemma IntRead(b: seq<u8>, i: nat, w: u32)
    requires At(b, i, IntBytes(w))
    ensures Int(b, i) == w
  {
    BytesWord(w);
    AtIndex(b, i, IntBytes(w), 0);
    AtIndex(b, i, IntBytes(w), 1);
    AtIndex(b, i, IntBytes(w), 2);
    AtIndex(b, i, IntBytes(w), 3);
  }

  lemma ShortRead(b: seq<u8>, i: nat, h: u16)
    requires At(b, i, ShortBytes(h))
    ensures Short(b, i) == h
  {
    AtIndex(b, i, ShortBytes(h), 0);
    AtIndex(b, i, ShortBytes(h), 1);
  }

  lemma StampRead(b: seq<u8>, i: nat, s: Slot, crate: u8)
    requires At(b, i, StampBytes(s))
    ensures StampAt(b, i, crate) == Stamp(crate, s.slot, s.trig, s.reftime)
  {
    hide IntBytes, Int;
    AtSplit(b, i, [s.slot] + IntBytes(s.trig), LongBytes(s.reftime));
    AtSplit(b, i, [s.slot], IntBytes(s.trig));
    AtSplit(b, i + 5, IntBytes(QuadLo(s.reftime)), IntBytes(QuadHi(s.reftime)));
    AtIndex(b, i, [s.slot], 0);
    IntRead(b, i + 1, s.trig);
    IntRead(b, i + 5, QuadLo(s.reftime));
    IntRead(b, i + 9, QuadHi(s.reftime));
  }

  lemma {:induction false} ShortsRead(b: seq<u8>, i: nat, hs: seq<u16>)
    requires At(b, i, ShortsBytes(hs))
    ensures Shorts(b, i, |hs|) == hs
    decreases |hs|
  {
    hide At, Short, ShortBytes;
    if hs != [] {
      AtSplit(b, i, ShortBytes(hs[0]), ShortsBytes(hs[1..]));
      ShortRead(b, i, hs[0]);
      ShortsRead(b, i + 2, hs[1..]);
      forall k | 0 <= k < |hs|
        ensures Shorts(b, i, |hs|)[k] == hs[k]
      {
        if k > 0 {
          assert Shorts(b, i + 2, |hs| - 1)[k - 1] == hs[1..][k - 1];
        }
      }
    }
  }

  lemma EntryRead(b: seq<u8>, i: nat, c: Channel, tag: u16, s: Stamp)
    requires ChannelFits(c, tag) && At(b, i, ChannelBytes(c))
    ensures Entry(b, i, tag, s) == Ok((Decoded(c, s), i + |ChannelBytes(c)|))
  {
    hide IntBytes, Int, Short, ShortBytes, ShortsBytes, Shorts, At;
    match c
    case Sampled(ch, ss) =>
      AtSplit(b, i, [ch] + IntBytes(|ss|), ShortsBytes(ss));
      AtSplit(b, i, [ch], IntBytes(|ss|));
      AtIndex(b, i, [ch], 0);
      IntRead(b, i + 1, |ss|);
      ShortsRead(b, i + 5, ss);
    case Valued(v) =>
      IntRead(b, i, v);
    case Pulsed(ch, a) =>
      AtSplit(b, i, [ch], ShortBytes(a));
      AtIndex(b, i, [ch], 0);
      ShortRead(b, i + 1, a);
  }

  lemma {:induction false} EntriesRead(b: seq<u8>, i: nat, cs: seq<Channel>, tag: u16, s: Stamp)
    requires ChannelsFit(cs, tag)
    requires At(b, i, ChannelsBytes(cs, tag))
    ensures Entries(b, i, |cs|, tag, s) == Ok((DecodedChannels(cs, s), i + |ChannelsBytes(cs, tag)|))
    decreases |cs|
  {
    hide Entry, Decoded, ChannelBytes;
    if cs != [] {
      AtSplit(b, i, ChannelBytes(cs[0]), ChannelsBytes(cs[1..], tag));
      EntryRead(b, i, cs[0], tag, s);
      EntriesRead(b, i + |ChannelBytes(cs[0])|, cs[1..], tag, s);
    }
  }

  /** Decoding any list of slot records gives back exactly its entries: with up to four bytes of
      padding the bound, four bytes short of the end, is passed behind the last record and never
      before it. */
  lemma {:induction false} RecordsRead(b: seq<u8>, i: nat, slots: seq<Slot>, tag: u16, crate: u8, pad: nat)
    requires Known(tag) && SlotsFit(slots, tag)
    requires At(b, i, Encode(slots, tag)) && pad <= 4
    ensures Records(b, i, i + |Encode(slots, tag)| + pad - 4, tag, crate) == Ok(DecodedSlots(slots, crate))
    decreases |slots|
  {
    hide StampAt, Int, StampBytes, IntBytes, ChannelsBytes, Entries, DecodedChannels;
    if slots != [] {
      var s := slots[0];
      assert SlotFits(s, tag);
      var head, count := StampBytes(s), IntBytes(|s.channels|);
      var body, rest := ChannelsBytes(s.channels, tag), Encode(slots[1..], tag);
      AtSplit(b, i, head + count + body, rest);
      AtSplit(b, i, head + count, body);
      AtSplit(b, i, head, count);
      StampRead(b, i, s, crate);
      IntRead(b, i + STAMP_LEN, |s.channels|);
      EntriesRead(b, i + STAMP_LEN + 4, s.channels, tag, StampAt(b, i, crate));
      RecordsRead(b, i + STAMP_LEN + 4 + |body|, slots[1..], tag, crate, pad);
    }
  }

  // ----- the formats in plain numbers -----

  /** Which channels the three tags stand for. */
  lemma TagsAre(slots: seq<Slot>)
    requires forall i :: 0 <= i < |slots| ==> |slots[i].channels| < 0x8000_0000
    ensures Known(57601) && Known(57650) && Known(57622)
    ensures (forall i, k :: 0 <= i < |slots| && 0 <= k < |slots[i].channels| ==>
               slots[i].channels[k].Sampled? && |slots[i].channels[k].samples| < 0x8000_0000) ==> SlotsFit(slots, 57601)
    ensures (forall i, k :: 0 <= i < |slots| && 0 <= k < |slots[i].channels| ==> slots[i].channels[k].Valued?)
            ==> SlotsFit(slots, 57650)
    ensures (forall i, k :: 0 <= i < |slots| && 0 <= k < |slots[i].channels| ==> slots[i].channels[k].Pulsed?)
            ==> SlotsFit(slots, 57622)
  {
  }

  /** A slot record: slot, four bytes of trigger number, eight of time, four of channel count, all lowest
      byte first; then the channels, and the next record. */
  lemma SlotLaidOut(slots: seq<Slot>, tag: u16)
    requires slots != [] && SlotsFit(slots, tag)
    ensures var b, s := Encode(slots, tag), slots[0];
            var rest := ChannelsBytes(s.channels, tag);
            && |b| >= 17 + |rest| && b[0] == s.slot && LowFirst(b[1..5]) == s.trig && LowFirst(b[5..13]) == s.reftime
            && LowFirst(b[13..17]) == |s.channels| && b[17..17 + |rest|] == rest
            && b[17 + |rest|..] == Encode(slots[1..], tag)
  {
    hide ChannelsBytes, IntBytes, LongBytes, LowFirst;
    var s := slots[0];
    assert SlotFits(s, tag);
    var rest, more := ChannelsBytes(s.channels, tag), Encode(slots[1..], tag);
    var b := Encode(slots, tag);
    assert b == StampBytes(s) + IntBytes(|s.channels|) + rest + more;
    hide Encode, SlotsFit;
    RecordParts(s, IntBytes(|s.channels|), rest, more);
    IntLow(s.trig);
    LongLow(s.reftime);
    IntLow(|s.channels|);
  }

  lemma RecordParts(s: Slot, count: seq<u8>, rest: seq<u8>, more: seq<u8>)
    requires |count| == 4
    ensures var b := StampBytes(s) + count + rest + more;
            && b[0] == s.slot && b[1..5] == IntBytes(s.trig) && b[5..13] == LongBytes(s.reftime) && b[13..17] == count
            && b[17..17 + |rest|] == rest && b[17 + |rest|..] == more
  {
    hide IntBytes, LongBytes;
  }

  /** The number whose bytes these are, the lowest first. */
  function LowFirst(b: seq<u8>): nat { if b == [] then 0 else b[0] + 256 * LowFirst(b[1..]) }

  lemma LowFour(b: seq<u8>)
    requires |b| == 4
    ensures LowFirst(b) == b[0] as int + 256 * b[1] as int + 65536 * b[2] as int + 16777216 * b[3] as int
  {
    assert LowFirst(b[3..]) == b[3] + 256 * LowFirst(b[3..][1..]);
    assert b[3..][1..] == [] && b[2..][1..] == b[3..] && b[1..][1..] == b[2..];
    assert LowFirst(b[2..]) == b[2] + 256 * LowFirst(b[3..]);
    assert LowFirst(b[1..]) == b[1] + 256 * LowFirst(b[2..]);
  }

  lemma IntLow(w: u32)
    ensures LowFirst(IntBytes(w)) == w
  {
    LowFour(IntBytes(w));
    BytesWord(w);
  }

  lemma LongLow(q: u64)
    ensures LowFirst(LongBytes(q)) == q
  {
    hide IntBytes;
    var lo, hi := IntBytes(QuadLo(q)), IntBytes(QuadHi(q));
    IntLow(QuadLo(q));
    IntLow(QuadHi(q));
    LowSum(lo, hi);
    LowFour(lo);
  }

  lemma LowSum(lo: seq<u8>, hi: seq<u8>)
    requires |lo| == 4
    ensures LowFirst(lo + hi) == LowFirst(lo) + 0x1_0000_0000 * LowFirst(hi)
  {
    var b := lo + hi;
    assert b[4..] == hi && b[3..][1..] == b[4..] && b[2..][1..] == b[3..] && b[1..][1..] == b[2..];
    assert LowFirst(b[3..]) == b[3] + 256 * LowFirst(hi);
    assert LowFirst(b[2..]) == b[2] + 256 * LowFirst(b[3..]);
    assert LowFirst(b[1..]) == b[1] + 256 * LowFirst(b[2..]);
    LowFour(lo);
  }

  /** A channel: its number, a count of samples and the samples; or a value; or its number and an
      amplitude; behind it the next channel. */
  lemma ChannelLaidOut(cs: seq<Channel>, tag: u16, i: nat)
    requires cs != [] && ChannelsFit(cs, tag)
    ensures var b, rest := ChannelsBytes(cs, tag), ChannelsBytes(cs[1..], tag);
            match cs[0]
            case Sampled(ch, ss) =>
              && |b| == 5 + 2 * |ss| + |rest| && b[0] == ch && LowFirst(b[1..5]) == |ss| && b[5 + 2 * |ss|..] == rest
              && (i < |ss| ==> ss[i] == b[5 + 2 * i] as int + 256 * b[6 + 2 * i] as int)
            case Valued(v) => |b| == 4 + |rest| && LowFirst(b[..4]) == v && b[4..] == rest
            case Pulsed(ch, a) =>
              |b| == 3 + |rest| && b[0] == ch && a == b[1] as int + 256 * b[2] as int && b[3..] == rest
  {
    hide IntBytes, LowFirst, ShortsBytes;
    assert ChannelFits(cs[0], tag);
    var b, rest := ChannelsBytes(cs, tag), ChannelsBytes(cs[1..], tag);
    assert b == ChannelBytes(cs[0]) + rest;
    hide ChannelsBytes;
    match cs[0]
    case Sampled(ch, ss) =>
      assert b[1..5] == IntBytes(|ss|);
      IntLow(|ss|);
      if i < |ss| {
        SampleAt(ss, i);
        assert b[5 + 2 * i] == ShortsBytes(ss)[2 * i] && b[6 + 2 * i] == ShortsBytes(ss)[2 * i + 1];
      }
    case Valued(v) =>
      assert b[..4] == IntBytes(v);
      IntLow(v);
    case Pulsed(_, _) =>
  }

  lemma {:induction false} SampleAt(hs: seq<u16>, i: nat)
    requires i < |hs|
    ensures hs[i] == ShortsBytes(hs)[2 * i] as int + 256 * ShortsBytes(hs)[2 * i + 1] as int
  {
    if i > 0 {
      SampleAt(hs[1..], i - 1);
    }
  }

  /** An entry carries what its slot record and channel say, and its crate. */
  lemma EntryTells(c: Channel, s: Stamp)
    ensures var d := Decoded(c, s);
            && d.crate == s.crate && d.slot == s.slot && d.trig == s.trig && d.reftime == s.reftime
            && (c.Sampled? ==> d.chan == c.chan && d.samples == c.samples && d.adc == 0 && d.iAdc == 0)
            && (c.Valued? ==> d.iAdc == c.value && d.chan == 0 && d.adc == 0 && d.samples == [])
            && (c.Pulsed? ==> d.chan == c.chan && d.adc == c.adc && d.iAdc == 0 && d.samples == [])
  {
  }

  /** Slot by slot, channel by channel. */
  lemma {:induction false} SlotsTell(slots: seq<Slot>, crate: u8, i: nat, k: nat)
    requires i < |slots| && k < |slots[i].channels|
    ensures var s := slots[i];
            Decoded(s.channels[k], Stamp(crate, s.slot, s.trig, s.reftime)) in DecodedSlots(slots, crate)
    decreases i
  {
    var s := slots[0];
    if i == 0 {
      ChannelsTell(s.channels, Stamp(crate, s.slot, s.trig, s.reftime), k);
    } else {
      SlotsTell(slots[1..], crate, i - 1, k);
    }
  }

  lemma {:induction false} ChannelsTell(cs: seq<Channel>, s: Stamp, k: nat)
    requires k < |cs|
    ensures |DecodedChannels(cs, s)| == |cs| && DecodedChannels(cs, s)[k] == Decoded(cs[k], s)
  {
    if |cs| > 1 {
      ChannelsTell(cs[1..], s, if k > 0 then k - 1 else 0);
    }
  }

  /** Counts are C ints: with the top bit set a sample count is bad and a channel count means none. */
  lemma NegativeCounts(b: seq<u8>, i: nat, limit: int, tag: u16, crate: u8, s: Stamp)
    ensures i + 5 <= |b| && tag == 57601 ==> (Entry(b, i, tag, s) == Err(BadCount) <==> b[i + 4] >= 128)
    ensures i < limit && i + 17 <= |b| && tag in {57601, 57650, 57622} && b[i + 16] >= 128 ==>
              Records(b, i, limit, tag, crate) == Records(b, i + 17, limit, tag, crate)
  {
    if i < limit && i + 17 <= |b| && tag in {57601, 57650, 57622} && b[i + 16] >= 128 {
      var rest := Records(b, i + 17, limit, tag, crate);
      assert rest.Ok? ==> [] + rest.value == rest.value;
    }
  }

  /** Under any other tag nothing is decoded: 13 bytes are passed at a time. */
  lemma {:induction false} OtherTags(b: seq<u8>, i: nat, limit: int, tag: u16, crate: u8)
    requires i <= |b| && tag != 57601 && tag != 57650 && tag != 57622
    ensures var steps := if i >= limit then 0 else (limit - i + 12) / 13;
            Records(b, i, limit, tag, crate) == if i + 13 * steps > |b| then Err(Overrun) else Ok([])
    decreases |b| - i
  {
    hide StampAt, Entries;
    if i < limit && i + 13 <= |b| {
      OtherTags(b, i + 13, limit, tag, crate);
    }
  }

  // ----- more behind the records -----

  lemma {:induction false} EntriesInLonger(b: seq<u8>, more: seq<u8>, i: nat, n: int, tag: u16, s: Stamp)
    requires i <= |b| && Entries(b, i, n, tag, s).Ok?
    ensures Entries(b + more, i, n, tag, s) == Entries(b, i, n, tag, s)
    decreases n
  {
    if n > 0 {
      EntryInLonger(b, more, i, tag, s);
      EntriesInLonger(b, more, Entry(b, i, tag, s).value.1, n - 1, tag, s);
    }
  }

  lemma EntryInLonger(b: seq<u8>, more: seq<u8>, i: nat, tag: u16, s: Stamp)
    requires Entry(b, i, tag, s).Ok?
    ensures Entry(b + more, i, tag, s) == Entry(b, i, tag, s)
  {
    if tag == TAG_SAMPLES {
      var n := Signed(Int(b, i + 1));
      assert Shorts(b + more, i + 5, n) == Shorts(b, i + 5, n);
    }
  }

  /** Slot records that end inside a buffer are read the same with more behind it. */
  lemma {:induction false} RecordsInLonger(b: seq<u8>, more: seq<u8>, i: nat, limit: int, tag: u16, crate: u8)
    requires i <= |b| && Records(b, i, limit, tag, crate).Ok?
    ensures Records(b + more, i, limit, tag, crate) == Records(b, i, limit, tag, crate)
    decreases |b| - i
  {
    hide Entries;
    if i < limit {
      assert StampAt(b + more, i, crate) == StampAt(b, i, crate);
      if Known(tag) {
        var n, s := Signed(Int(b, i + STAMP_LEN)), StampAt(b, i, crate);
        EntriesInLonger(b, more, i + STAMP_LEN + 4, n, tag, s);
        RecordsInLonger(b, more, Entries(b, i + STAMP_LEN + 4, n, tag, s).value.1, limit, tag, crate);
      } else {
        RecordsInLonger(b, more, i + STAMP_LEN, limit, tag, crate);
      }
    }
  }
}

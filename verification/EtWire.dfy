/** The monitoring data on the wire, int by int: which field stands where, highest byte first. */
module EtWire {
  import opened Words
  import opened EtMonitor

  /** Int number `k` of a block or record, highest byte first. */
  function Field(b: seq<u8>, k: nat): int
    requires 4 * k + 4 <= |b|
  {
    b[4 * k] as int * 16777216 + b[4 * k + 1] as int * 65536 + b[4 * k + 2] as int * 256 + b[4 * k + 3] as int
  }

  /** A 64-bit number in ints `k` and `k + 1`, the upper half first. */
  function Field64(b: seq<u8>, k: nat): int
    requires 4 * k + 8 <= |b|
  {
    Field(b, k) * 4294967296 + Field(b, k + 1)
  }

  /** A negative number in two's complement. */
  function Bits(x: i32): int { if x < 0 then x as int + 4294967296 else x }

  lemma IntField(x: i32)
    ensures Field(IntBytes(x), 0) == Bits(x)
  {
    FourBytes(Unsigned(x));
  }

  lemma {:induction false} IntsOnWire(xs: seq<i32>, more: seq<u8>, k: nat)
    requires k < |xs|
    ensures Field(SerInts(xs) + more, k) == Bits(xs[k])
    decreases |xs|
  {
    hide IntBytes, Bits;
    var n := |xs| - 1;
    assert SerInts(xs) + more == SerInts(xs[..n]) + (IntBytes(xs[n]) + more);
    if k < n {
      IntsOnWire(xs[..n], IntBytes(xs[n]) + more, k);
    } else {
      IntField(xs[n]);
    }
  }

  lemma AllOnWire(xs: seq<i32>, more: seq<u8>)
    ensures forall k :: 0 <= k < |xs| ==> Field(SerInts(xs) + more, k) == Bits(xs[k])
  {
    forall k | 0 <= k < |xs| ensures Field(SerInts(xs) + more, k) == Bits(xs[k]) {
      IntsOnWire(xs, more, k);
    }
  }

  lemma HalvesBits(v: u64)
    ensures Bits(HighInt(v)) * 4294967296 + Bits(LowInt(v)) == v
  {
  }

  lemma CountBits(n: nat)
    requires n < 0x8000_0000
    ensures Bits(n) == n
  {
  }

  // ----- the blocks -----

  /** The system block. */
  lemma SystemOnWire(s: SystemData)
    requires SystemOk(s)
    ensures var b := SerSystem(s);
      && |b| >= 108 && Field(b, 0) == Bits(s.alive) && Field(b, 1) == Bits(s.heartbeat)
      && Field(b, 2) == Bits(s.ntemps) && Field(b, 3) == Bits(s.nstations) && Field(b, 4) == Bits(s.nattachments)
      && Field(b, 5) == Bits(s.nprocesses) && Field(b, 6) == Bits(s.eventsOwned) && Field(b, 7) == Bits(s.mutex)
      && Field(b, 8) == Bits(s.statMutex) && Field(b, 9) == Bits(s.stataddMutex) && Field(b, 10) == Bits(s.endian)
      && Field(b, 11) == Bits(s.share) && Field(b, 12) == Bits(s.mainpid) && Field(b, 13) == Bits(s.nselects)
      && Field(b, 14) == Bits(s.nevents) && Field64(b, 15) == s.eventSize && Field(b, 17) == Bits(s.bit64)
      && Field(b, 18) == Bits(s.ntempsMax) && Field(b, 19) == Bits(s.nstationsMax)
      && Field(b, 20) == Bits(s.nattachmentsMax) && Field(b, 21) == Bits(s.nprocessesMax)
      && Field(b, 22) == Bits(s.tcpPort) && Field(b, 23) == Bits(s.udpPort) && Field(b, 24) == Bits(s.multiPort)
      && Field(b, 25) == |s.ifaddrs| && Field(b, 26) == |s.mcastaddrs|
  {
    hide SerInts, SerStrings, Bits, Field, HighInt, LowInt;
    var xs, more := SystemInts(s), SerInts(Lengths(SystemStrings(s))) + SerStrings(SystemStrings(s));
    assert SerSystem(s) == SerInts(xs) + more;
    SystemStringsOk(s);
    AllOnWire(xs, more);
    HalvesBits(s.eventSize);
    CountBits(|s.ifaddrs|);
    CountBits(|s.mcastaddrs|);
  }

  /** A block of records begins with how many there are. */
  lemma CountOnWire(rs: seq<Record>, kind: Kind)
    requires AllOk(rs, kind)
    ensures |SerBlock(rs, kind)| >= 4 && Field(SerBlock(rs, kind), 0) == |rs|
  {
    hide SerRecords, IntBytes;
    IntField(|rs|);
    CountBits(|rs|);
    assert SerBlock(rs, kind)[..4] == IntBytes(|rs|);
    assert forall i :: 0 <= i < 4 ==> SerBlock(rs, kind)[i] == IntBytes(|rs|)[i];
  }

  /** An attachment, with the lengths of its three strings, the closing zeros counted. */
  lemma AttachmentOnWire(r: Record)
    requires r.AttachmentData? && RecordOk(r)
    ensures var b := SerRecord(r);
      && |b| >= 72 && Field(b, 0) == Bits(r.num) && Field(b, 1) == Bits(r.process) && Field(b, 2) == Bits(r.stat)
      && Field(b, 3) == Bits(r.pid) && Field(b, 4) == Bits(r.blocked) && Field(b, 5) == Bits(r.quit)
      && Field(b, 6) == Bits(r.owned) && Field64(b, 7) == r.eventsPut && Field64(b, 9) == r.eventsGet
      && Field64(b, 11) == r.eventsDump && Field64(b, 13) == r.eventsMake
      && Field(b, 15) == |r.host| + 1 && Field(b, 16) == |r.station| + 1 && Field(b, 17) == |r.interf| + 1
      && b[72..] == r.host + [0] + r.station + [0] + r.interf + [0]
  {
    hide SerInts, Bits, Field, HighInt, LowInt;
    var xs, ss := RecordInts(r), RecordStrings(r);
    AllOnWire(xs, SerStrings(ss));
    ThreeStrings(r.host, r.station, r.interf);
    HalvesBits(r.eventsPut);
    HalvesBits(r.eventsGet);
    HalvesBits(r.eventsDump);
    HalvesBits(r.eventsMake);
    forall i | 0 <= i < 3 ensures Bits(xs[15 + i]) == |ss[i]| + 1 {
      assert CString(ss[i]);
      CountBits(|ss[i]| + 1);
    }
    assert xs[15] == Lengths(ss)[0] && xs[16] == Lengths(ss)[1] && xs[17] == Lengths(ss)[2];
    assert ss[0] == r.host && ss[1] == r.station && ss[2] == r.interf;
  }

  lemma ThreeStrings(a: seq<u8>, b: seq<u8>, c: seq<u8>)
    ensures SerStrings([a, b, c]) == a + [0] + b + [0] + c + [0]
  {
    assert [a, b, c][1..] == [b, c] && [b, c][1..] == [c] && [c][1..] == [];
    assert SerStrings([c]) == c + [0] + [];
    assert SerStrings([b, c]) == b + [0] + SerStrings([c]);
  }

  lemma FourStrings(a: seq<u8>, b: seq<u8>, c: seq<u8>, d: seq<u8>)
    ensures SerStrings([a, b, c, d]) == a + [0] + b + [0] + c + [0] + d + [0]
  {
    assert [a, b, c, d][1..] == [b, c, d];
    ThreeStrings(b, c, d);
    assert SerStrings([a, b, c, d]) == a + [0] + SerStrings([b, c, d]);
  }

  lemma AttachmentPlaces(r: Record)
    requires (r.ProcessData? || r.StationData?) && RecordOk(r)
    ensures |r.att| == 110
  {
  }

  /** A process: the number of attachments, what it is, and the attachments. */
  lemma ProcessOnWire(r: Record, i: nat)
    requires r.ProcessData? && RecordOk(r)
    ensures var b, list := SerRecord(r), Listed(r.att);
      && |r.att| == 110 && |b| == 16 + 4 * |list| && Field(b, 0) == |list| && Field(b, 1) == Bits(r.num)
      && Field(b, 2) == Bits(r.heartbeat) && Field(b, 3) == Bits(r.pid)
      && (i < |list| ==> Field(b, 4 + i) == Bits(list[i]))
  {
    hide SerInts, Bits, Field, Listed, Sparse;
    var xs := RecordInts(r);
    AttachmentPlaces(r);
    SparseComes(r.att);
    AllOnWire(xs, []);
    assert SerRecord(r) == SerInts(xs) + [];
    CountBits(|Listed(r.att)|);
    if i < |Listed(r.att)| {
      assert xs[4 + i] == Listed(r.att)[i];
    }
  }

  /** A station: the number of attachments, what it is, the attachments, both lists, the configuration,
      the select words, the lengths of its four strings, and the strings. */
  lemma StationOnWire(r: Record, i: nat)
    requires r.StationData? && RecordOk(r)
    ensures var b, list := SerRecord(r), Listed(r.att);
      var j := 4 + |list|;
      && |r.att| == 110 && |r.select| == 6
      && |b| >= 4 * j + 108 && Field(b, 0) == |list| && Field(b, 1) == Bits(r.num) && Field(b, 2) == Bits(r.status)
      && Field(b, 3) == Bits(r.mutex) && (i < |list| ==> Field(b, 4 + i) == Bits(list[i]))
      && Field(b, j) == Bits(r.inlistMutex) && Field(b, j + 1) == Bits(r.inlistCnt)
      && Field64(b, j + 2) == r.inlistTry && Field64(b, j + 4) == r.inlistIn
      && Field(b, j + 6) == Bits(r.outlistMutex) && Field(b, j + 7) == Bits(r.outlistCnt)
      && Field64(b, j + 8) == r.outlistOut && Field(b, j + 10) == Bits(r.flowMode)
      && Field(b, j + 11) == Bits(r.userMode) && Field(b, j + 12) == Bits(r.restoreMode)
      && Field(b, j + 13) == Bits(r.blockMode) && Field(b, j + 14) == Bits(r.prescale)
      && Field(b, j + 15) == Bits(r.cue)
      && Field(b, j + 16) == Bits(r.selectMode) && (i < 6 ==> Field(b, j + 17 + i) == Bits(r.select[i]))
      && Field(b, j + 23) == |r.fname| + 1 && Field(b, j + 24) == |r.lib| + 1 && Field(b, j + 25) == |r.classs| + 1
      && Field(b, j + 26) == |r.name| + 1
      && b[4 * j + 108..] == r.fname + [0] + r.lib + [0] + r.classs + [0] + r.name + [0]
  {
    hide SerInts, Bits, Field, Listed, Sparse, HighInt, LowInt, SerStrings;
    var xs, ss, list := RecordInts(r), RecordStrings(r), Listed(r.att);
    AttachmentPlaces(r);
    SparseComes(r.att);
    AllOnWire(xs, SerStrings(ss));
    FourStrings(r.fname, r.lib, r.classs, r.name);
    StationFields(r, i);
    HalvesBits(r.inlistTry);
    HalvesBits(r.inlistIn);
    HalvesBits(r.outlistOut);
    CountBits(|list|);
    assert CString(ss[0]) && CString(ss[1]) && CString(ss[2]) && CString(ss[3]);
    CountBits(|r.fname| + 1);
    CountBits(|r.lib| + 1);
    CountBits(|r.classs| + 1);
    CountBits(|r.name| + 1);
    hide RecordInts;
    assert |xs| == 31 + |list|;
  }

  /** The same positions in the list of ints. */
  lemma StationFields(r: Record, i: nat)
    requires r.StationData? && RecordOk(r)
    ensures var xs, list := RecordInts(r), Listed(r.att);
      var j := 4 + |list|;
      && |xs| == j + 27 && |list| <= ATTACHMENTS_MAX
      && xs[0] == |list| && xs[1] == r.num && xs[2] == r.status && xs[3] == r.mutex
      && (i < |list| ==> xs[4 + i] == list[i])
      && xs[j] == r.inlistMutex && xs[j + 1] == r.inlistCnt && xs[j + 2] == HighInt(r.inlistTry)
      && xs[j + 3] == LowInt(r.inlistTry) && xs[j + 4] == HighInt(r.inlistIn) && xs[j + 5] == LowInt(r.inlistIn)
      && xs[j + 6] == r.outlistMutex && xs[j + 7] == r.outlistCnt && xs[j + 8] == HighInt(r.outlistOut)
      && xs[j + 9] == LowInt(r.outlistOut) && xs[j + 10] == r.flowMode && xs[j + 11] == r.userMode
      && xs[j + 12] == r.restoreMode && xs[j + 13] == r.blockMode && xs[j + 14] == r.prescale && xs[j + 15] == r.cue
      && xs[j + 16] == r.selectMode && (i < 6 ==> xs[j + 17 + i] == r.select[i])
      && xs[j + 23] == |r.fname| + 1 && xs[j + 24] == |r.lib| + 1 && xs[j + 25] == |r.classs| + 1
      && xs[j + 26] == |r.name| + 1
  {
    hide Listed, Sparse, HighInt, LowInt, CStrings, Lengths, StationTail;
    SparseComes(r.att);
    var ls, tail := Lengths(RecordStrings(r)), StationTail(r);
    assert ls[0] == |r.fname| + 1 && ls[1] == |r.lib| + 1 && ls[2] == |r.classs| + 1 && ls[3] == |r.name| + 1;
    var head := [|Listed(r.att)|, r.num, r.status, r.mutex];
    assert RecordInts(r) == head + Listed(r.att) + tail + ls;
    hide RecordInts, RecordOk;
    Placed(head, Listed(r.att), tail, ls, 4 + |Listed(r.att)|);
    TailFields(r, i);
  }

  lemma Placed(head: seq<i32>, list: seq<i32>, tail: seq<i32>, ls: seq<i32>, j: nat)
    requires |head| == 4 && |tail| == 23 && |ls| == 4 && j == 4 + |list|
    ensures var xs := head + list + tail + ls;
            && |xs| == j + 27 && xs[0] == head[0] && xs[1] == head[1] && xs[2] == head[2] && xs[3] == head[3]
            && (forall k :: 0 <= k < |list| ==> xs[4 + k] == list[k])
            && (forall k :: 0 <= k < 23 ==> xs[j + k] == tail[k])
            && xs[j + 23] == ls[0] && xs[j + 24] == ls[1] && xs[j + 25] == ls[2] && xs[j + 26] == ls[3]
  {
  }

  lemma TailFields(r: Record, i: nat)
    requires r.StationData? && |r.select| == SELECT_INTS
    ensures var t := StationTail(r);
      && t[0] == r.inlistMutex && t[1] == r.inlistCnt && t[2] == HighInt(r.inlistTry) && t[3] == LowInt(r.inlistTry)
      && t[4] == HighInt(r.inlistIn) && t[5] == LowInt(r.inlistIn) && t[6] == r.outlistMutex && t[7] == r.outlistCnt
      && t[8] == HighInt(r.outlistOut) && t[9] == LowInt(r.outlistOut) && t[10] == r.flowMode && t[11] == r.userMode
      && t[12] == r.restoreMode && t[13] == r.blockMode && t[14] == r.prescale && t[15] == r.cue
      && t[16] == r.selectMode && (i < 6 ==> t[17 + i] == r.select[i])
  {
    hide HighInt, LowInt;
  }
}

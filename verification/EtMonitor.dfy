/** What a monitor is told about an ET system: four blocks of records, written one behind the other and read
    back from one buffer. */
module EtMonitor {
  import opened Words

  type i32 = x: int | -0x8000_0000 <= x < 0x8000_0000

  const ATTACHMENTS_MAX: nat := 110
  const SELECT_INTS: nat := 6

  datatype Fault = Overrun

  // ----- integers and strings on the wire -----

  function Unsigned(x: i32): u32 { if x < 0 then x as int + 0x1_0000_0000 else x }

  function Signed(w: u32): i32 { if w < 0x8000_0000 then w else w as int - 0x1_0000_0000 }

  /** `htonl`: network byte order. */
  function IntBytes(x: i32): (b: seq<u8>)
    ensures |b| == 4
  {
    var w: int := Unsigned(x);
    [w / 0x100_0000, w / 0x1_0000 % 0x100, w / 0x100 % 0x100, w % 0x100]
  }

  function IntAt(b: seq<u8>, at: nat): i32
    requires at + 4 <= |b|
  {
    var p: int, q: int, r: int, s: int := b[at], b[at + 1], b[at + 2], b[at + 3];
    Signed(((p * 0x100 + q) * 0x100 + r) * 0x100 + s)
  }

  function SerInts(xs: seq<i32>): (b: seq<u8>)
    ensures |b| == 4 * |xs|
  {
    if xs == [] then [] else SerInts(xs[..|xs| - 1]) + IntBytes(xs[|xs| - 1])
  }

  function ReadInts(b: seq<u8>, at: nat, n: nat): (xs: seq<i32>)
    requires at + 4 * n <= |b|
    ensures |xs| == n
  {
    seq(n, i requires 0 <= i < n => IntAt(b, at + 4 * i))
  }

  lemma IntRead(b: seq<u8>, at: nat, x: i32)
    requires At(b, at, IntBytes(x))
    ensures IntAt(b, at) == x
  {
    var w: int := Unsigned(x);
    assert b[at] == IntBytes(x)[0] && b[at + 1] == IntBytes(x)[1] && b[at + 2] == IntBytes(x)[2]
        && b[at + 3] == IntBytes(x)[3] by {
      assert b[at..at + 4] == IntBytes(x);
    }
    FourBytes(w);
  }

  lemma FourBytes(w: int)
    requires 0 <= w < 0x1_0000_0000
    ensures ((w / 0x100_0000 * 0x100 + w / 0x1_0000 % 0x100) * 0x100 + w / 0x100 % 0x100) * 0x100 + w % 0x100 == w
  {
    var a := w / 0x100;
    var c := a / 0x100;
    assert w / 0x1_0000 == c && w / 0x100_0000 == c / 0x100;
  }

  lemma {:induction false} IntsRead(b: seq<u8>, at: nat, xs: seq<i32>)
    requires At(b, at, SerInts(xs))
    ensures at + 4 * |xs| <= |b| && ReadInts(b, at, |xs|) == xs
  {
    hide At, IntBytes, IntAt;
    if xs != [] {
      var n := |xs| - 1;
      AtSplit(b, at, SerInts(xs[..n]), IntBytes(xs[n]));
      IntsRead(b, at, xs[..n]);
      IntRead(b, at + 4 * n, xs[n]);
      forall i | 0 <= i < |xs| ensures ReadInts(b, at, |xs|)[i] == xs[i] {
        assert i < n ==> ReadInts(b, at, n)[i] == xs[..n][i];
      }
    }
  }

  /** 64-bit counters travel as two ints, the high half first. */
  function HighInt(v: u64): i32 { Signed(v / 0x1_0000_0000) }

  function LowInt(v: u64): i32 { Signed(v % 0x1_0000_0000) }

  function Join64(hi: i32, lo: i32): u64 { Unsigned(hi) as int * 0x1_0000_0000 + Unsigned(lo) as int }

  lemma HalvesJoin(v: u64)
    ensures Join64(HighInt(v), LowInt(v)) == v
  {
  }

  predicate CString(s: seq<u8>) { |s| < 0x1_0000 && forall i :: 0 <= i < |s| ==> s[i] != 0 }

  predicate CStrings(ss: seq<seq<u8>>) { forall i :: 0 <= i < |ss| ==> CString(ss[i]) }

  function SerStrings(ss: seq<seq<u8>>): seq<u8> {
    if ss == [] then [] else ss[0] + [0] + SerStrings(ss[1..])
  }

  function Lengths(ss: seq<seq<u8>>): (ls: seq<i32>)
    requires CStrings(ss)
    ensures |ls| == |ss| && forall i :: 0 <= i < |ss| ==> ls[i] == |ss[i]| + 1
  {
    seq(|ss|, i requires 0 <= i < |ss| => |ss[i]| + 1)
  }

  /** What C makes of copied bytes: everything up to the first NUL. */
  function Cut(b: seq<u8>): seq<u8> { if b == [] || b[0] == 0 then [] else [b[0]] + Cut(b[1..]) }

  function ReadStrings(b: seq<u8>, at: nat, lens: seq<i32>): Result<(seq<seq<u8>>, nat), Fault>
    requires at <= |b|
    decreases |lens|
  {
    if lens == [] then Ok(([], at))
    else if lens[0] < 0 || at + lens[0] > |b| then Err(Overrun)
    else
      var rest :- ReadStrings(b, at + lens[0], lens[1..]);
      Ok(([Cut(b[at..at + lens[0]])] + rest.0, rest.1))
  }

  lemma {:induction false} CutWhole(s: seq<u8>)
    requires forall i :: 0 <= i < |s| ==> s[i] != 0
    ensures Cut(s + [0]) == s
  {
    if s != [] {
      CutWhole(s[1..]);
      assert (s + [0])[1..] == s[1..] + [0];
    }
  }

  lemma {:induction false} StringsRead(b: seq<u8>, at: nat, ss: seq<seq<u8>>)
    requires CStrings(ss) && At(b, at, SerStrings(ss))
    ensures at <= |b| && ReadStrings(b, at, Lengths(ss)) == Ok((ss, at + |SerStrings(ss)|))
    decreases |ss|
  {
    hide At, Cut;
    if ss != [] {
      var s := ss[0];
      AtSplit(b, at, s + [0], SerStrings(ss[1..]));
      AtBytes(b, at, s + [0]);
      CutWhole(s);
      StringsRead(b, at + |s| + 1, ss[1..]);
      assert Lengths(ss)[1..] == Lengths(ss[1..]);
      assert [s] + ss[1..] == ss;
    }
  }

  lemma AtBytes(b: seq<u8>, at: nat, s: seq<u8>)
    requires At(b, at, s)
    ensures at + |s| <= |b| && b[at..at + |s|] == s
  {
  }

  // ----- sparse attachment sets -----

  /** The ids listed in an array with a place for every possible attachment, unused places negative. */
  function Listed(att: seq<i32>): (list: seq<i32>)
    ensures |list| <= |att| && forall i :: 0 <= i < |list| ==> list[i] >= 0
  {
    if att == [] then []
    else
      var rest := Listed(att[..|att| - 1]);
      if att[|att| - 1] < 0 then rest else rest + [att[|att| - 1]]
  }

  predicate Fits(list: seq<i32>) { forall i :: 0 <= i < |list| ==> 0 <= list[i] < ATTACHMENTS_MAX }

  /** Every listed id back in its own place. */
  function Spread(list: seq<i32>): (att: seq<i32>)
    requires Fits(list)
    ensures |att| == ATTACHMENTS_MAX
    ensures forall i :: 0 <= i < ATTACHMENTS_MAX ==> att[i] == if i in list then i else -1
  {
    seq(ATTACHMENTS_MAX, i requires 0 <= i < ATTACHMENTS_MAX => if i in list then i else -1)
  }

  predicate Sparse(att: seq<i32>)
  {
    |att| == ATTACHMENTS_MAX && forall i :: 0 <= i < |att| ==> att[i] == i || att[i] == -1
  }

  lemma {:induction false} ListedIn(att: seq<i32>, v: i32)
    ensures v in Listed(att) <==> v >= 0 && v in att
    decreases |att|
  {
    if att != [] {
      ListedIn(att[..|att| - 1], v);
      assert att == att[..|att| - 1] + [att[|att| - 1]];
    }
  }

  /** An attachment set comes through exactly if it is sparse, each id in its own place. */
  lemma SparseExactly(att: seq<i32>)
    requires |att| == ATTACHMENTS_MAX
    ensures Sparse(att) <==> Fits(Listed(att)) && Spread(Listed(att)) == att
  {
    var list := Listed(att);
    if Sparse(att) {
      forall i | 0 <= i < |list| ensures 0 <= list[i] < ATTACHMENTS_MAX {
        ListedIn(att, list[i]);
      }
      forall i: i32 | 0 <= i < ATTACHMENTS_MAX ensures Spread(list)[i] == att[i] {
        ListedIn(att, i);
      }
    }
  }

  lemma SparseComes(att: seq<i32>)
    requires Sparse(att)
    ensures Fits(Listed(att)) && Spread(Listed(att)) == att && |Listed(att)| <= ATTACHMENTS_MAX
  {
    SparseExactly(att);
  }

  // ----- the records -----

  datatype SystemData = SystemData(
    alive: i32, heartbeat: i32, ntemps: i32, nstations: i32, nattachments: i32, nprocesses: i32, eventsOwned: i32,
    mutex: i32, statMutex: i32, stataddMutex: i32, endian: i32, share: i32, mainpid: i32, nselects: i32, nevents: i32,
    eventSize: u64, bit64: i32, ntempsMax: i32, nstationsMax: i32, nattachmentsMax: i32, nprocessesMax: i32,
    tcpPort: i32, udpPort: i32, multiPort: i32, ifaddrs: seq<seq<u8>>, mcastaddrs: seq<seq<u8>>, filename: seq<u8>)

  datatype Kind = Stations | Attachments | Processes

  datatype Record =
    | StationData(num: i32, status: i32, mutex: i32, att: seq<i32>, inlistMutex: i32, inlistCnt: i32,
                  inlistTry: u64, inlistIn: u64, outlistMutex: i32, outlistCnt: i32, outlistOut: u64,
                  flowMode: i32, userMode: i32, restoreMode: i32, blockMode: i32, prescale: i32, cue: i32,
                  selectMode: i32, select: seq<i32>, fname: seq<u8>, lib: seq<u8>, classs: seq<u8>, name: seq<u8>)
    | AttachmentData(num: i32, process: i32, stat: i32, pid: i32, blocked: i32, quit: i32, owned: i32,
                     eventsPut: u64, eventsGet: u64, eventsDump: u64, eventsMake: u64, host: seq<u8>,
                     station: seq<u8>, interf: seq<u8>)
    | ProcessData(num: i32, heartbeat: i32, pid: i32, att: seq<i32>)

  predicate Count(n: nat) { n < 0x1_0000 }

  predicate SystemOk(s: SystemData) {
    CStrings(s.ifaddrs) && CStrings(s.mcastaddrs) && CString(s.filename) && Count(|s.ifaddrs|) && Count(|s.mcastaddrs|)
  }

  function SystemInts(s: SystemData): (xs: seq<i32>)
    requires Count(|s.ifaddrs|) && Count(|s.mcastaddrs|)
    ensures |xs| == 27
  {
    [s.alive, s.heartbeat, s.ntemps, s.nstations, s.nattachments, s.nprocesses, s.eventsOwned, s.mutex, s.statMutex,
     s.stataddMutex, s.endian, s.share, s.mainpid, s.nselects, s.nevents,
     HighInt(s.eventSize), LowInt(s.eventSize), s.bit64,
     s.ntempsMax, s.nstationsMax, s.nattachmentsMax, s.nprocessesMax, s.tcpPort, s.udpPort, s.multiPort, |s.ifaddrs|,
     |s.mcastaddrs|]
  }

  function SystemStrings(s: SystemData): seq<seq<u8>> { s.ifaddrs + s.mcastaddrs + [s.filename] }

  function SerSystem(s: SystemData): seq<u8>
    requires SystemOk(s)
  {
    SerInts(SystemInts(s)) + SerInts(Lengths(SystemStrings(s))) + SerStrings(SystemStrings(s))
  }

  function SystemOf(xs: seq<i32>, ss: seq<seq<u8>>): SystemData
    requires |xs| == 27 && xs[25] >= 0 && xs[26] >= 0 && |ss| == xs[25] as int + xs[26] as int + 1
  {
    SystemData(xs[0], xs[1], xs[2], xs[3], xs[4], xs[5], xs[6], xs[7], xs[8], xs[9], xs[10], xs[11], xs[12], xs[13],
               xs[14],
               Join64(xs[15], xs[16]), xs[17], xs[18], xs[19], xs[20], xs[21], xs[22], xs[23], xs[24],
               ss[..xs[25]], ss[xs[25]..|ss| - 1], ss[|ss| - 1])
  }

  /** `et_data_getsys`: the system block, and where the next block starts. */
  function ReadSystem(b: seq<u8>, at: nat): Result<(SystemData, nat), Fault> {
    if at + 4 * 27 > |b| then Err(Overrun)
    else
      var xs := ReadInts(b, at, 27);
      var n := xs[25] as int + xs[26] as int + 1;
      if xs[25] < 0 || xs[26] < 0 || at + 4 * 27 + 4 * n > |b| then Err(Overrun)
      else
        var strings :- ReadStrings(b, at + 4 * 27 + 4 * n, ReadInts(b, at + 4 * 27, n));
        if |strings.0| != n then Err(Overrun) else Ok((SystemOf(xs, strings.0), strings.1))
  }

  lemma SystemInverse(s: SystemData)
    requires SystemOk(s)
    ensures SystemOf(SystemInts(s), SystemStrings(s)) == s
  {
    hide HighInt, LowInt, Join64;
    HalvesJoin(s.eventSize);
    assert SystemStrings(s)[..|s.ifaddrs|] == s.ifaddrs;
    assert SystemStrings(s)[|s.ifaddrs|..|SystemStrings(s)| - 1] == s.mcastaddrs;
  }

  lemma {:induction false} SystemRead(b: seq<u8>, at: nat, s: SystemData)
    requires SystemOk(s) && At(b, at, SerSystem(s))
    ensures ReadSystem(b, at) == Ok((s, at + |SerSystem(s)|))
  {
    hide At, SerInts, SerStrings, ReadInts, ReadStrings, SystemOf, SystemInts, SystemStrings, Lengths;
    var xs, ss := SystemInts(s), SystemStrings(s);
    SystemStringsOk(s);
    var ls := Lengths(ss);
    AtSplit(b, at, SerInts(xs) + SerInts(ls), SerStrings(ss));
    AtSplit(b, at, SerInts(xs), SerInts(ls));
    IntsRead(b, at, xs);
    IntsRead(b, at + 4 * 27, ls);
    StringsRead(b, at + 4 * 27 + 4 * |ls|, ss);
    SystemInverse(s);
  }

  lemma SystemStringsOk(s: SystemData)
    requires SystemOk(s)
    ensures CStrings(SystemStrings(s)) && |SystemStrings(s)| == |s.ifaddrs| + |s.mcastaddrs| + 1
    ensures SystemInts(s)[25] == |s.ifaddrs| && SystemInts(s)[26] == |s.mcastaddrs|
  {
  }

  // ----- station, attachment and process records -----

  function KindOf(r: Record): Kind {
    match r
    case StationData(_, _, _, _, _, _, _, _, _, _, _, _, _, _, _, _, _, _, _, _, _, _, _) => Stations
    case AttachmentData(_, _, _, _, _, _, _, _, _, _, _, _, _, _) => Attachments
    case ProcessData(_, _, _, _) => Processes
  }

  function RecordStrings(r: Record): seq<seq<u8>> {
    if r.StationData? then [r.fname, r.lib, r.classs, r.name]
    else if r.AttachmentData? then [r.host, r.station, r.interf]
    else []
  }

  predicate RecordOk(r: Record) {
    && CStrings(RecordStrings(r))
    && (r.StationData? ==> Sparse(r.att) && |r.select| == SELECT_INTS)
    && (r.ProcessData? ==> Sparse(r.att))
  }

  /** A station's ints behind its attachments, without the string lengths. */
  function StationTail(r: Record): (xs: seq<i32>)
    requires r.StationData? && |r.select| == SELECT_INTS
    ensures |xs| == 17 + SELECT_INTS
  {
    [r.inlistMutex, r.inlistCnt, HighInt(r.inlistTry), LowInt(r.inlistTry), HighInt(r.inlistIn), LowInt(r.inlistIn),
     r.outlistMutex, r.outlistCnt, HighInt(r.outlistOut), LowInt(r.outlistOut),
     r.flowMode, r.userMode, r.restoreMode, r.blockMode, r.prescale, r.cue, r.selectMode] + r.select
  }

  function AttachmentInts(r: Record): (xs: seq<i32>)
    requires r.AttachmentData?
    ensures |xs| == 15
  {
    [r.num, r.process, r.stat, r.pid, r.blocked, r.quit, r.owned, HighInt(r.eventsPut), LowInt(r.eventsPut),
     HighInt(r.eventsGet), LowInt(r.eventsGet), HighInt(r.eventsDump), LowInt(r.eventsDump), HighInt(r.eventsMake),
     LowInt(r.eventsMake)]
  }

  function RecordInts(r: Record): seq<i32>
    requires RecordOk(r)
  {
    match KindOf(r)
    case Stations => [|Listed(r.att)|, r.num, r.status, r.mutex] + Listed(r.att) + StationTail(r)
        + Lengths(RecordStrings(r))
    case Attachments => AttachmentInts(r) + Lengths(RecordStrings(r))
    case Processes => [|Listed(r.att)|, r.num, r.heartbeat, r.pid] + Listed(r.att)
  }

  function SerRecord(r: Record): seq<u8>
    requires RecordOk(r)
  {
    SerInts(RecordInts(r)) + SerStrings(RecordStrings(r))
  }

  /** `xs` are the ints behind the number `n` of attachments. */
  function StationOf(xs: seq<i32>, n: nat, ss: seq<seq<u8>>): Record
    requires |xs| == 24 + SELECT_INTS + n && |ss| == 4 && Fits(xs[3..3 + n])
  {
    var k := 3 + n;
    StationData(xs[0], xs[1], xs[2], Spread(xs[3..3 + n]), xs[k], xs[k + 1], Join64(xs[k + 2], xs[k + 3]),
                Join64(xs[k + 4], xs[k + 5]),
                xs[k + 6], xs[k + 7], Join64(xs[k + 8], xs[k + 9]), xs[k + 10], xs[k + 11], xs[k + 12], xs[k + 13],
                xs[k + 14], xs[k + 15], xs[k + 16], xs[k + 17..k + 17 + SELECT_INTS], ss[0], ss[1], ss[2], ss[3])
  }

  function AttachmentOf(xs: seq<i32>, ss: seq<seq<u8>>): Record
    requires |xs| == 18 && |ss| == 3
  {
    AttachmentData(xs[0], xs[1], xs[2], xs[3], xs[4], xs[5], xs[6], Join64(xs[7], xs[8]), Join64(xs[9], xs[10]),
                   Join64(xs[11], xs[12]), Join64(xs[13], xs[14]), ss[0], ss[1], ss[2])
  }

  /** The decoder's turn for one record: the record, and where the next one starts. */
  function ReadRecord(kind: Kind, b: seq<u8>, at: nat): Result<(Record, nat), Fault> {
    match kind
    case Stations =>
      if at + 4 > |b| then Err(Overrun)
      else
        var n := IntAt(b, at);
        if n < 0 || n > ATTACHMENTS_MAX || at + 4 + 4 * (24 + SELECT_INTS + n) > |b| then Err(Overrun)
        else
          var xs := ReadInts(b, at + 4, 24 + SELECT_INTS + n);
          var strings :- ReadStrings(b, at + 4 + 4 * |xs|, xs[|xs| - 4..]);
          if !Fits(xs[3..3 + n]) || |strings.0| != 4 then Err(Overrun) else Ok((StationOf(xs, n, strings.0), strings.1))
    case Attachments =>
      if at + 4 * 18 > |b| then Err(Overrun)
      else
        var xs := ReadInts(b, at, 18);
        var strings :- ReadStrings(b, at + 4 * 18, xs[15..]);
        if |strings.0| != 3 then Err(Overrun) else Ok((AttachmentOf(xs, strings.0), strings.1))
    case Processes =>
      if at + 4 > |b| then Err(Overrun)
      else
        var n := IntAt(b, at);
        if n < 0 || n > ATTACHMENTS_MAX || at + 4 + 4 * (3 + n) > |b| then Err(Overrun)
        else
          var xs := ReadInts(b, at + 4, 3 + n);
          if !Fits(xs[3..]) then Err(Overrun)
          else Ok((ProcessData(xs[0], xs[1], xs[2], Spread(xs[3..])), at + 4 + 4 * |xs|))
  }

  lemma RecordRead(b: seq<u8>, at: nat, r: Record)
    requires RecordOk(r) && At(b, at, SerRecord(r))
    ensures ReadRecord(KindOf(r), b, at) == Ok((r, at + |SerRecord(r)|))
  {
    hide At, SerInts, SerStrings, ReadInts, ReadStrings, RecordInts, RecordStrings, Lengths, RecordOk, CStrings,
        IntAt, ReadRecord;
    AtSplit(b, at, SerInts(RecordInts(r)), SerStrings(RecordStrings(r)));
    IntsRead(b, at, RecordInts(r));
    StringsPart(b, at, r);
    match KindOf(r)
    case Stations => StationRead(b, at, r);
    case Attachments => AttachmentRead(b, at, r);
    case Processes => ProcessRead(b, at, r);
  }

  lemma SerLength(r: Record)
    requires RecordOk(r)
    ensures |SerRecord(r)| == 4 * |RecordInts(r)| + |SerStrings(RecordStrings(r))|
  {
  }

  lemma StringsPart(b: seq<u8>, at: nat, r: Record)
    requires RecordOk(r) && At(b, at + 4 * |RecordInts(r)|, SerStrings(RecordStrings(r)))
    ensures var p := at + 4 * |RecordInts(r)|;
            p <= |b| && ReadStrings(b, p, Lengths(RecordStrings(r)))
                == Ok((RecordStrings(r), p + |SerStrings(RecordStrings(r))|))
  {
    hide At, RecordInts, RecordStrings, SerStrings, ReadStrings, CStrings, Lengths;
    StringsRead(b, at + 4 * |RecordInts(r)|, RecordStrings(r));
  }

  /** The ints behind the first one. */
  lemma IntsBehind(b: seq<u8>, at: nat, n: nat)
    requires n >= 1 && at + 4 * n <= |b|
    ensures IntAt(b, at) == ReadInts(b, at, n)[0] && ReadInts(b, at + 4, n - 1) == ReadInts(b, at, n)[1..]
  {
    hide IntAt;
  }

  lemma ProcessRead(b: seq<u8>, at: nat, r: Record)
    requires r.ProcessData? && RecordOk(r) && at + 4 * |RecordInts(r)| <= |b|
            && ReadInts(b, at, |RecordInts(r)|) == RecordInts(r)
    ensures ReadRecord(Processes, b, at) == Ok((r, at + |SerRecord(r)|))
  {
    hide ReadInts, IntAt, SerInts, Sparse, Fits, Spread, Listed;
    var xs := RecordInts(r);
    IntsBehind(b, at, |xs|);
    SparseComes(r.att);
    assert xs[1..][3..] == Listed(r.att);
  }

  lemma AttachmentRead(b: seq<u8>, at: nat, r: Record)
    requires r.AttachmentData? && RecordOk(r) && at + 4 * |RecordInts(r)| <= |b|
            && ReadInts(b, at, |RecordInts(r)|) == RecordInts(r)
    requires var p := at + 4 * |RecordInts(r)|;
             ReadStrings(b, p, Lengths(RecordStrings(r))) == Ok((RecordStrings(r), p + |SerStrings(RecordStrings(r))|))
    ensures ReadRecord(Attachments, b, at) == Ok((r, at + |SerRecord(r)|))
  {
    hide ReadInts, SerInts, SerStrings, ReadStrings, CStrings, AttachmentOf, AttachmentInts, Lengths, RecordStrings;
    AttachmentInverse(r);
    assert RecordInts(r)[15..] == Lengths(RecordStrings(r));
  }

  lemma AttachmentInverse(r: Record)
    requires r.AttachmentData? && RecordOk(r)
    ensures |RecordInts(r)| == 18 && |RecordStrings(r)| == 3 && AttachmentOf(RecordInts(r), RecordStrings(r)) == r
  {
    hide HighInt, LowInt, Join64, CStrings, Lengths;
    HalvesJoin(r.eventsPut);
    HalvesJoin(r.eventsGet);
    HalvesJoin(r.eventsDump);
    HalvesJoin(r.eventsMake);
    assert RecordInts(r)[..15] == AttachmentInts(r);
    assert forall i :: 0 <= i < 15 ==> RecordInts(r)[i] == AttachmentInts(r)[i];
  }

  lemma StationRead(b: seq<u8>, at: nat, r: Record)
    requires r.StationData? && RecordOk(r) && at + 4 * |RecordInts(r)| <= |b|
            && ReadInts(b, at, |RecordInts(r)|) == RecordInts(r)
    requires var p := at + 4 * |RecordInts(r)|;
             ReadStrings(b, p, Lengths(RecordStrings(r))) == Ok((RecordStrings(r), p + |SerStrings(RecordStrings(r))|))
    ensures ReadRecord(Stations, b, at) == Ok((r, at + |SerRecord(r)|))
  {
    hide ReadInts, IntAt, SerInts, SerStrings, ReadStrings, CStrings, Sparse, Fits, Spread, Listed, StationOf,
        RecordStrings, StationTail, Lengths;
    hide RecordInts, SerRecord, RecordOk, ReadRecord;
    StationParts(r);
    SerLength(r);
    StationInverse(r);
    var n := |RecordInts(r)|;
    IntsBehind(b, at, n);
    var k := |Listed(r.att)|;
    var xs := ReadInts(b, at + 4, 24 + SELECT_INTS + k);
    assert xs == RecordInts(r)[1..] && IntAt(b, at) == k && at + 4 + 4 * |xs| == at + 4 * n;
    assert xs[3..3 + k] == RecordInts(r)[1..][3..3 + k] && xs[|xs| - 4..] == RecordInts(r)[1..][n - 5..];
    StationReads(b, at, k, RecordStrings(r), at + |SerRecord(r)|);
  }

  lemma StationReads(b: seq<u8>, at: nat, n: nat, names: seq<seq<u8>>, end: nat)
    requires n <= ATTACHMENTS_MAX && at + 4 + 4 * (24 + SELECT_INTS + n) <= |b| && IntAt(b, at) == n && |names| == 4
    requires var xs := ReadInts(b, at + 4, 24 + SELECT_INTS + n);
             ReadStrings(b, at + 4 + 4 * |xs|, xs[|xs| - 4..]) == Ok((names, end)) && Fits(xs[3..3 + n])
    ensures ReadRecord(Stations, b, at) == Ok((StationOf(ReadInts(b, at + 4, 24 + SELECT_INTS + n), n, names), end))
  {
    hide ReadInts, IntAt, ReadStrings, Fits, StationOf;
  }

  lemma Slices(head: seq<i32>, list: seq<i32>, tail: seq<i32>, lens: seq<i32>)
    requires |head| == 4 && |tail| == 17 + SELECT_INTS && |lens| == 4
    ensures var xs := (head + list + tail + lens)[1..];
            && |xs| == 24 + SELECT_INTS + |list| && xs[0] == head[1] && xs[1] == head[2] && xs[2] == head[3]
            && xs[3..3 + |list|] == list && xs[|xs| - 4..] == lens
            && (forall i :: 0 <= i < |tail| ==> xs[3 + |list| + i] == tail[i])
            && xs[20 + |list|..20 + |list| + SELECT_INTS] == tail[17..]
  {
  }

  lemma StationParts(r: Record)
    requires r.StationData? && RecordOk(r)
    ensures var all, n := RecordInts(r), |Listed(r.att)|;
            && |all| == 25 + SELECT_INTS + n && all[0] == n && n <= ATTACHMENTS_MAX && |RecordStrings(r)| == 4
            && all[1..][3..3 + n] == Listed(r.att) && Fits(Listed(r.att))
            && all[1..][|all| - 5..] == Lengths(RecordStrings(r))
  {
    hide Sparse, Fits, Listed, StationTail, Lengths, Spread;
    SparseComes(r.att);
    Slices([|Listed(r.att)|, r.num, r.status, r.mutex], Listed(r.att), StationTail(r), Lengths(RecordStrings(r)));
  }

  lemma StationInverse(r: Record)
    requires r.StationData? && RecordOk(r)
    requires var n := |Listed(r.att)|;
             |RecordInts(r)| == 25 + SELECT_INTS + n && Fits(RecordInts(r)[1..][3..3 + n]) && |RecordStrings(r)| == 4
    ensures StationOf(RecordInts(r)[1..], |Listed(r.att)|, RecordStrings(r)) == r
  {
    hide HighInt, LowInt, Join64, Sparse, Fits, Listed, Lengths, Spread, CStrings;
    HalvesJoin(r.inlistTry);
    HalvesJoin(r.inlistIn);
    HalvesJoin(r.outlistOut);
    SparseComes(r.att);
    Slices([|Listed(r.att)|, r.num, r.status, r.mutex], Listed(r.att), StationTail(r), Lengths(RecordStrings(r)));
    assert StationTail(r)[17..] == r.select;
  }

  // ----- blocks, and all of them behind each other -----

  predicate AllOk(rs: seq<Record>, kind: Kind)
  {
    Count(|rs|) && forall i :: 0 <= i < |rs| ==> RecordOk(rs[i]) && KindOf(rs[i]) == kind
  }

  function SerRecords(rs: seq<Record>): seq<u8>
    requires forall i :: 0 <= i < |rs| ==> RecordOk(rs[i])
  {
    if rs == [] then [] else SerRecords(rs[..|rs| - 1]) + SerRecord(rs[|rs| - 1])
  }

  /** A block: how many records, and the records. */
  function SerBlock(rs: seq<Record>, kind: Kind): seq<u8>
    requires AllOk(rs, kind)
  {
    IntBytes(|rs|) + SerRecords(rs)
  }

  function ReadRecords(kind: Kind, b: seq<u8>, at: nat, n: nat): Result<(seq<Record>, nat), Fault> {
    if n == 0 then Ok(([], at))
    else
      var before :- ReadRecords(kind, b, at, n - 1);
      var last :- ReadRecord(kind, b, before.1);
      Ok((before.0 + [last.0], last.1))
  }

  function ReadBlock(kind: Kind, b: seq<u8>, at: nat): Result<(seq<Record>, nat), Fault> {
    if at + 4 > |b| || IntAt(b, at) < 0 then Err(Overrun) else ReadRecords(kind, b, at + 4, IntAt(b, at))
  }

  lemma {:induction false} RecordsRead(b: seq<u8>, at: nat, rs: seq<Record>, kind: Kind)
    requires AllOk(rs, kind) && At(b, at, SerRecords(rs))
    ensures ReadRecords(kind, b, at, |rs|) == Ok((rs, at + |SerRecords(rs)|))
    decreases |rs|
  {
    hide At, SerRecord, ReadRecord, RecordOk;
    if rs != [] {
      var n := |rs| - 1;
      AtSplit(b, at, SerRecords(rs[..n]), SerRecord(rs[n]));
      RecordsRead(b, at, rs[..n], kind);
      RecordRead(b, at + |SerRecords(rs[..n])|, rs[n]);
      assert rs == rs[..n] + [rs[n]];
    }
  }

  /** A block read back: its records, and exactly the start of what follows it. */
  lemma {:induction false} BlockRead(b: seq<u8>, at: nat, rs: seq<Record>, kind: Kind)
    requires AllOk(rs, kind) && At(b, at, SerBlock(rs, kind))
    ensures ReadBlock(kind, b, at) == Ok((rs, at + |SerBlock(rs, kind)|))
  {
    hide At, SerRecords, ReadRecords, RecordOk, IntBytes, IntAt;
    AtSplit(b, at, IntBytes(|rs|), SerRecords(rs));
    IntRead(b, at, |rs|);
    AtBytes(b, at, IntBytes(|rs|));
    RecordsRead(b, at + 4, rs, kind);
  }

  datatype AllData = AllData(system: SystemData, stations: seq<Record>, attachments: seq<Record>,
      processes: seq<Record>)

  predicate AllDataOk(d: AllData) {
    SystemOk(d.system) && AllOk(d.stations, Stations) && AllOk(d.attachments, Attachments)
        && AllOk(d.processes, Processes)
  }

  function SerAll(d: AllData): seq<u8>
    requires AllDataOk(d)
  {
    SerSystem(d.system) + SerBlock(d.stations, Stations) + SerBlock(d.attachments, Attachments)
        + SerBlock(d.processes, Processes)
  }

  function ReadAll(b: seq<u8>): Result<AllData, Fault> {
    var system :- ReadSystem(b, 0);
    var stations :- ReadBlock(Stations, b, system.1);
    var attachments :- ReadBlock(Attachments, b, stations.1);
    var processes :- ReadBlock(Processes, b, attachments.1);
    Ok(AllData(system.0, stations.0, attachments.0, processes.0))
  }

  /** The monitor gets back everything the system sent. */
  lemma {:induction false} AllRead(d: AllData, post: seq<u8>)
    requires AllDataOk(d)
    ensures ReadAll(SerAll(d) + post) == Ok(d)
  {
    hide SerSystem, SerBlock, ReadSystem, ReadBlock, SystemOk, AllOk;
    var s, t, a, p := SerSystem(d.system), SerBlock(d.stations, Stations), SerBlock(d.attachments, Attachments),
        SerBlock(d.processes, Processes);
    var b := s + t + a + p + post;
    assert At(b, 0, s + t + a + p);
    AtSplit(b, 0, s + t + a, p);
    AtSplit(b, 0, s + t, a);
    AtSplit(b, 0, s, t);
    SystemRead(b, 0, d.system);
    BlockRead(b, |s|, d.stations, Stations);
    BlockRead(b, |s| + |t|, d.attachments, Attachments);
    BlockRead(b, |s| + |t| + |a|, d.processes, Processes);
  }

  // ----- the loops -----

  /** `et_data_stats`, `et_data_procs`: the used places of an attachment array. */
  method ListUsed(att: seq<i32>) returns (list: seq<i32>)
    ensures list == Listed(att)
  {
    list := [];
    for i := 0 to |att|
      invariant list == Listed(att[..i])
    {
      assert att[..i + 1][..i] == att[..i];
      if att[i] < 0 {
        continue;
      }
      list := list + [att[i]];
    }
    assert att[..|att|] == att;
  }

  /** `et_data_getstat`, `et_data_getproc`: all places cleared, then the listed ones set. */
  method Fill110(list: seq<i32>) returns (att: array<i32>)
    requires Fits(list)
    ensures fresh(att) && att[..] == Spread(list)
  {
    att := new i32[ATTACHMENTS_MAX](_ => -1);
    for j := 0 to |list|
      invariant att.Length == ATTACHMENTS_MAX
      invariant forall i :: 0 <= i < ATTACHMENTS_MAX ==> att[i] == if i in list[..j] then i else -1
    {
      att[list[j]] := list[j];
      assert forall i :: i in list[..j + 1] <==> i in list[..j] || i == list[j];
    }
    assert list[..|list|] == list;
  }

  /** The records of the places in use. */
  function Used(slots: seq<Option<Record>>): seq<Record> {
    if slots == [] then []
    else
      var last := slots[|slots| - 1];
      Used(slots[..|slots| - 1]) + if last.Some? then [last.value] else []
  }

  predicate SlotsOk(slots: seq<Option<Record>>, kind: Kind) {
    Count(|slots|) && forall i :: 0 <= i < |slots| && slots[i].Some? ==>
          RecordOk(slots[i].value) && KindOf(slots[i].value) == kind
  }

  lemma {:induction false} UsedOk(slots: seq<Option<Record>>, kind: Kind)
    requires SlotsOk(slots, kind)
    ensures AllOk(Used(slots), kind) && |Used(slots)| <= |slots|
  {
    hide RecordOk;
    if slots != [] {
      UsedOk(slots[..|slots| - 1], kind);
    }
  }

  lemma {:induction false} UsedPrefix(slots: seq<Option<Record>>, i: nat)
    requires i <= |slots|
    ensures Used(slots[..i]) <= Used(slots)
  {
    if i < |slots| {
      var before := slots[..|slots| - 1];
      UsedPrefix(before, i);
      assert before[..i] == slots[..i];
    } else {
      assert slots[..i] == slots;
    }
  }

  lemma UsedMore(slots: seq<Option<Record>>, i: nat)
    requires i < |slots|
    ensures Used(slots[..i + 1]) == Used(slots[..i]) + if slots[i].Some? then [slots[i].value] else []
    ensures Used(slots[..i + 1]) <= Used(slots)
  {
    assert slots[..i + 1][..i] == slots[..i];
    UsedPrefix(slots, i + 1);
  }

  /** The places in use, counted before the buffer is made. */
  method CountUsed(slots: seq<Option<Record>>) returns (count: nat)
    ensures count == |Used(slots)|
  {
    count := 0;
    for i := 0 to |slots|
      invariant count == |Used(slots[..i])|
    {
      UsedMore(slots, i);
      if slots[i].Some? {
        count := count + 1;
      }
    }
    assert slots[..|slots|] == slots;
  }

  /** The encoders' loops: one record after the other for the places in use, no more than were counted
      before, and the count put right if there are fewer by now. */
  method DataBlock(slots: seq<Option<Record>>, count1: nat, kind: Kind) returns (iov: seq<u8>)
    requires SlotsOk(slots, kind) && Count(count1)
    ensures AllOk(Used(slots), kind)
    ensures var rs := Used(slots); iov == SerBlock(if |rs| <= count1 then rs else rs[..count1], kind)
  {
    hide SerRecord, RecordOk, Used, IntBytes, SerRecords, SerBlock, SlotsOk, AllOk;
    UsedOk(slots, kind);
    UsedNone(slots, kind);
    ghost var rs := Used(slots);
    var count2, i := 0, 0;
    iov := IntBytes(count1);
    while i < |slots|
      invariant 0 <= i <= |slots| && count2 <= count1 && count2 <= |rs|
      invariant Used(slots[..i]) == rs[..count2] && Part(iov, count1, rs, count2, kind)
    {
      UsedMore(slots, i);
      if slots[i].Some? {
        count2 := count2 + 1;
        if count2 > count1 {
          break;
        }
        PartMore(iov, count1, rs, count2 - 1, kind);
        iov := iov + SerRecord(slots[i].value);
      }
      i := i + 1;
    }
    if i == |slots| {
      assert slots[..|slots|] == slots;
      PartWhole(iov, count1, rs, count2, kind);
      if count2 < count1 {
        iov := IntBytes(count2) + iov[4..];
      }
    } else {
      PartWhole(iov, count1, rs, count1, kind);
    }
  }

  /** The buffer with `n` of the records behind the count `count`. */
  predicate Part(iov: seq<u8>, count: nat, rs: seq<Record>, n: nat, kind: Kind)
    requires AllOk(rs, kind) && Count(count) && n <= |rs|
  {
    iov == IntBytes(count) + SerRecords(rs[..n])
  }

  lemma PartMore(iov: seq<u8>, count: nat, rs: seq<Record>, n: nat, kind: Kind)
    requires AllOk(rs, kind) && Count(count) && n < |rs| && Part(iov, count, rs, n, kind)
    ensures RecordOk(rs[n]) && Part(iov + SerRecord(rs[n]), count, rs, n + 1, kind)
  {
    hide SerRecord, RecordOk, IntBytes;
    assert rs[..n + 1][..n] == rs[..n];
  }

  /** With the right count put in, it is a block. */
  lemma PartWhole(iov: seq<u8>, count: nat, rs: seq<Record>, n: nat, kind: Kind)
    requires AllOk(rs, kind) && Count(count) && n <= |rs| && n <= count && Part(iov, count, rs, n, kind)
    ensures |iov| >= 4 && AllOk(rs[..n], kind) && IntBytes(n) + iov[4..] == SerBlock(rs[..n], kind)
    ensures n == count ==> iov == SerBlock(rs[..n], kind)
  {
    hide SerRecord, RecordOk, IntBytes, SerRecords;
  }

  lemma UsedNone(slots: seq<Option<Record>>, kind: Kind)
    requires SlotsOk(slots, kind)
    ensures AllOk(Used(slots), kind) && Used(slots[..0]) == Used(slots)[..0]
    ensures forall n: nat :: Count(n) ==> Part(IntBytes(n), n, Used(slots), 0, kind)
  {
    UsedOk(slots, kind);
    assert forall n: nat :: Count(n) ==> IntBytes(n) + [] == IntBytes(n);
  }

  /** The decoders' loops, and how `et_data_get` chains them. */
  method GetBlock(kind: Kind, b: seq<u8>, at: nat) returns (r: Result<(seq<Record>, nat), Fault>)
    ensures r == ReadBlock(kind, b, at)
  {
    hide ReadRecord, IntAt;
    if at + 4 > |b| || IntAt(b, at) < 0 {
      return Err(Overrun);
    }
    var count: nat := IntAt(b, at);
    var records, buffer := [], at + 4;
    for i := 0 to count
      invariant ReadRecords(kind, b, at + 4, i) == Ok((records, buffer))
    {
      var one := ReadRecord(kind, b, buffer);
      if one.Err? {
        FaultStays(kind, b, at + 4, i + 1, count);
        return Err(one.error);
      }
      records, buffer := records + [one.value.0], one.value.1;
    }
    r := Ok((records, buffer));
  }

  lemma {:induction false} FaultStays(kind: Kind, b: seq<u8>, at: nat, i: nat, n: nat)
    requires i <= n && ReadRecords(kind, b, at, i).Err?
    ensures ReadRecords(kind, b, at, n) == ReadRecords(kind, b, at, i)
    decreases n
  {
    hide ReadRecord;
    if i < n {
      FaultStays(kind, b, at, i, n - 1);
    }
  }

  method DataGet(b: seq<u8>) returns (r: Result<AllData, Fault>)
    ensures r == ReadAll(b)
  {
    hide ReadSystem, ReadBlock;
    var system := ReadSystem(b, 0);
    if system.Err? { return Err(system.error); }
    var stations := GetBlock(Stations, b, system.value.1);
    if stations.Err? { return Err(stations.error); }
    var attachments := GetBlock(Attachments, b, stations.value.1);
    if attachments.Err? { return Err(attachments.error); }
    var processes := GetBlock(Processes, b, attachments.value.1);
    if processes.Err? { return Err(processes.error); }
    r := Ok(AllData(system.value.0, stations.value.0, attachments.value.0, processes.value.0));
  }
}

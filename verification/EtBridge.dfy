/** The local-to-local bridge: batched transfer of events between two ET systems. */
module EtBridge {
  import opened Words
  import opened EtPort

  // ----- what is carried over -----

  /** `want` is the byte order the "to" system's host works in, if data is to be swapped at all. */
  datatype Config = Config(chunkFrom: nat, chunkTo: nat, want: Option<u32>)

  function Join(a: u8, b: u8, c: u8, d: u8): u32 { ((a * 0x100 + b) * 0x100 + c) * 0x100 + d }

  function SwapWord(w: u32): u32 {
    var high := w / 0x100;
    Join(w % 0x100, high % 0x100, high / 0x100 % 0x100, high / 0x100 / 0x100)
  }

  predicate Swaps(byteorder: u32, want: Option<u32>) { want.Some? && byteorder != want.value }

  /** What a transferred event has in common with its source. */
  predicate Copied(src: Event, dst: Event, nselects: nat, want: Option<u32>) {
    && src.length == dst.length <= |src.memory| && dst.length <= |dst.memory|
    && dst.priority == src.priority
    && nselects <= |src.control| && nselects <= |dst.control| && dst.control[..nselects] == src.control[..nselects]
    && if Swaps(src.byteorder, want) then dst.byteorder == SwapWord(src.byteorder)
       else dst.byteorder == src.byteorder && dst.memory[..dst.length] == src.memory[..src.length]
  }

  predicate AllCopied(srcs: seq<Event>, dsts: seq<Event>, nselects: nat, want: Option<u32>) {
    |srcs| == |dsts| && forall k :: 0 <= k < |srcs| ==> Copied(srcs[k], dsts[k], nselects, want)
  }

  /** An event marked with either byte order leaves marked with the one wanted. */
  lemma {:induction false} ByteorderSettled(src: Event, dst: Event, nselects: nat, want: u32)
    requires want in {0x04030201, 0x01020304} && src.byteorder in {0x04030201, 0x01020304}
    requires Copied(src, dst, nselects, Some(want))
    ensures dst.byteorder == want
  {
    hide SwapWord;
    SwapOrders();
  }

  lemma SwapOrders()
    ensures SwapWord(0x04030201) == 0x01020304 && SwapWord(0x01020304) == 0x04030201
  {
    Swapped(1, 2, 3, 4);
    Swapped(4, 3, 2, 1);
  }

  lemma Swapped(a: u8, b: u8, c: u8, d: u8)
    ensures SwapWord(Join(a, b, c, d)) == Join(d, c, b, a)
  {
    LowByte((a * 0x100 + b) * 0x100 + c, d);
    LowByte(a * 0x100 + b, c);
    LowByte(a, b);
  }

  lemma LowByte(high: nat, low: u8)
    ensures (high * 0x100 + low) / 0x100 == high && (high * 0x100 + low) % 0x100 == low
  {
  }

  // ----- replacing an event that is too small -----

  /** What the call for a larger event came to: none was read, one was read and then not made, or
      one was made. */
  datatype Replacement = NotRead | ReadOnly(id: nat) | Made(id: nat)

  /** The new events and the events to dump afterwards, from what they were. */
  function Replaced(slots: seq<nat>, spare: seq<nat>, i: nat, r: Replacement): (seq<nat>, seq<nat>)
    requires i < |slots|
  {
    match r
    case NotRead => (slots, spare)
    case ReadOnly(id) => (slots[i := id], spare)
    case Made(id) => (slots[i := id], spare + [slots[i]])
  }

  /** The event to be replaced is in neither list afterwards exactly if another one was read and then
      not made. */
  lemma LostExactly(slots: seq<nat>, spare: seq<nat>, i: nat, r: Replacement)
    requires i < |slots| && NoDuplicates(slots + spare)
    requires !r.NotRead? ==> r.id !in slots + spare
    ensures var (slots', spare') := Replaced(slots, spare, i, r);
            slots[i] !in slots' && slots[i] !in spare' <==> r.ReadOnly?
  {
    var (slots', spare') := Replaced(slots, spare, i, r);
    match r
    case NotRead => assert slots'[i] == slots[i];
    case Made(_) => assert spare'[|spare|] == slots[i];
    case ReadOnly(id) =>
      assert slots[i] in slots + spare;
      forall k | 0 <= k < |slots| && k != i ensures slots'[k] != slots[i] {
        assert (slots + spare)[k] == slots[k] && (slots + spare)[i] == slots[i];
      }
      forall k | 0 <= k < |spare| ensures spare[k] != slots[i] {
        assert (slots + spare)[|slots| + k] == spare[k] && (slots + spare)[i] == slots[i];
      }
  }

  /** Event 7 is to be replaced; event 8 is read, but no temp file can be made for it. */
  lemma SevenLost()
    ensures Replaced([7], [], 0, ReadOnly(8)) == ([8], [])
  {
    var slots: seq<nat> := [7];
    assert slots[0 := 8] == [8];
  }

  // ----- in which order -----

  function Sum(ns: seq<nat>): nat { if ns == [] then 0 else Sum(ns[..|ns| - 1]) + ns[|ns| - 1] }

  function Range(from: nat, n: nat): (r: seq<nat>)
    ensures |r| == n && forall i :: 0 <= i < n ==> r[i] == from + i
  {
    seq(n, i requires 0 <= i < n => from + i)
  }

  /** The offset the source index starts from in the pass after `passes`: the size of the last pass,
      not of all of them, because the source assigns where it should accumulate. */
  function Offset(passes: seq<nat>): nat { if passes == [] then 0 else passes[|passes| - 1] }

  /** Source indices used when a batch is served in passes of these sizes. */
  function Indices(passes: seq<nat>): (r: seq<nat>)
    ensures |r| == Sum(passes)
  {
    if passes == [] then []
    else
      var before := passes[..|passes| - 1];
      Indices(before) + Range(Offset(before), passes[|passes| - 1])
  }

  /** One batch read from the "from" system, and the passes it was served in so far. */
  datatype Batch = Batch(sources: seq<Event>, passes: seq<nat>)

  predicate Sound(b: Batch) {
    Sum(b.passes) <= |b.sources| && forall i :: 0 <= i < |b.passes| ==> b.passes[i] >= 1
  }

  /** Every source index used lies in the batch, whatever the sizes of the passes. */
  lemma {:induction false} IndicesInside(passes: seq<nat>, n: nat)
    requires Sum(passes) <= n
    ensures forall k :: 0 <= k < |Indices(passes)| ==> Indices(passes)[k] < n
    decreases |passes|
  {
    if passes != [] {
      var before := passes[..|passes| - 1];
      OffsetInside(before);
      IndicesInside(before, n);
    }
  }

  lemma OffsetInside(passes: seq<nat>)
    ensures Offset(passes) <= Sum(passes)
  {
  }

  function Picks(sources: seq<Event>, at: seq<nat>): (es: seq<Event>)
    requires forall k :: 0 <= k < |at| ==> at[k] < |sources|
    ensures |es| == |at| && forall k :: 0 <= k < |at| ==> es[k] == sources[at[k]]
  {
    seq(|at|, k requires 0 <= k < |at| => sources[at[k]])
  }

  /** The source events of a batch's new events, in the order of those. */
  function Shipped(b: Batch): (es: seq<Event>)
    requires Sound(b)
    ensures |es| == Sum(b.passes)
  {
    IndicesInside(b.passes, |b.sources|);
    Picks(b.sources, Indices(b.passes))
  }

  predicate AllSound(log: seq<Batch>) { forall i :: 0 <= i < |log| ==> Sound(log[i]) }

  function AllShipped(log: seq<Batch>): seq<Event>
    requires AllSound(log)
  {
    if log == [] then [] else AllShipped(log[..|log| - 1]) + Shipped(log[|log| - 1])
  }

  function Sources(log: seq<Batch>): seq<Event> {
    if log == [] then [] else Sources(log[..|log| - 1]) + log[|log| - 1].sources
  }

  lemma SumOfOne(ns: seq<nat>)
    requires |ns| <= 1
    ensures Sum(ns) == Offset(ns)
  {
    if |ns| == 1 {
      assert ns[..0] == [];
    }
  }

  lemma FirstPasses(passes: seq<nat>)
    requires |passes| <= 2
    ensures Indices(passes) == Range(0, Sum(passes))
  {
    if |passes| == 2 {
      FirstPasses(passes[..1]);
      SumOfOne(passes[..1]);
    } else if |passes| == 1 {
      assert passes[..0] == [];
    }
  }

  lemma ThirdPass(passes: seq<nat>)
    requires |passes| >= 3 && forall i :: 0 <= i < |passes| ==> passes[i] >= 1
    ensures Sum(passes[..|passes| - 1]) > Offset(passes[..|passes| - 1])
  {
    var before := passes[..|passes| - 1];
    var earlier := before[..|before| - 1];
    assert Sum(earlier) >= earlier[|earlier| - 1];
  }

  /** The k-th new event comes from the k-th source event of its batch exactly as long as no batch
      takes more than two passes. */
  lemma {:induction false} InOrderIff(passes: seq<nat>)
    requires forall i :: 0 <= i < |passes| ==> passes[i] >= 1
    ensures Indices(passes) == Range(0, Sum(passes)) <==> |passes| <= 2
  {
    if |passes| <= 2 {
      FirstPasses(passes);
    } else {
      var before := passes[..|passes| - 1];
      ThirdPass(passes);
      assert Indices(passes)[Sum(before)] == Offset(before);
    }
  }

  /** Three passes of a single event each already repeat a source event and lose another. */
  lemma ThirdPassOutOfOrder()
    ensures Indices([1, 1, 1]) == [0, 1, 1]
  {
    var p3: seq<nat>, p2: seq<nat>, p1: seq<nat> := [1, 1, 1], [1, 1], [1];
    assert p3[..2] == p2 && p2[..1] == p1 && p1[..0] == [];
    assert Indices(p1) == [0];
    assert Indices(p2) == [0] + Range(1, 1);
  }

  /** Served in at most two passes each, all batches but the last complete, events go out as they came. */
  lemma {:induction false} TwoPassesInOrder(log: seq<Batch>)
    requires AllSound(log) && forall i :: 0 <= i < |log| ==> |log[i].passes| <= 2
    requires forall i :: 0 <= i < |log| - 1 ==> Sum(log[i].passes) == |log[i].sources|
    ensures AllShipped(log) <= Sources(log)
    ensures log != [] && Sum(log[|log| - 1].passes) == |log[|log| - 1].sources| ==> AllShipped(log) == Sources(log)
  {
    if log != [] {
      var before, last := log[..|log| - 1], log[|log| - 1];
      TwoPassesInOrder(before);
      if before != [] {
        assert before[|before| - 1] == log[|log| - 2];
      }
      assert AllShipped(before) == Sources(before);
      InOrderIff(last.passes);
      assert Shipped(last) == last.sources[..Sum(last.passes)];
    }
  }
}

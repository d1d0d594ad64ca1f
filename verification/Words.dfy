/** Machine integers, and the byte, half-word and quad-word views that the C++ code
    gets by casting a word pointer.  Views are little-endian, as on the hosts the code runs on. */
module Words {

  type u8 = x: int | 0 <= x < 0x100
  type u16 = x: int | 0 <= x < 0x1_0000
  type u32 = x: int | 0 <= x < 0x1_0000_0000
  type u64 = x: int | 0 <= x < 0x1_0000_0000_0000_0000

  /** Buffers are indexed with a C `int`. */
  const MAX_WORDS: int := 0x8000_0000

  datatype Result<+T, +E> = Ok(value: T) | Err(error: E) {
    predicate IsFailure() { Err? }
    function PropagateFailure<U>(): Result<U, E>
      requires Err?
    {
      Err(error)
    }
    function Extract(): T
      requires Ok?
    {
      value
    }
  }

  datatype Option<+T> = None | Some(value: T)

  predicate NoDuplicates<T(==)>(s: seq<T>) { forall i, j :: 0 <= i < j < |s| ==> s[i] != s[j] }

  function Max(a: int, b: int): int { if a < b then b else a }

  function Fill<T>(n: nat, v: T): (s: seq<T>)
    ensures |s| == n && forall i :: 0 <= i < n ==> s[i] == v
  {
    seq(n, _ => v)
  }

  // ----- bytes -----

  function ByteOf(w: u32, i: nat): u8
    requires i < 4
  {
    if i == 0 then w % 0x100
    else if i == 1 then (w / 0x100) % 0x100
    else if i == 2 then (w / 0x1_0000) % 0x100
    else w / 0x100_0000
  }

  function Word(b0: u8, b1: u8, b2: u8, b3: u8): u32 {
    b0 + b1 * 0x100 + b2 * 0x1_0000 + b3 * 0x100_0000
  }

  /** `((uint8_t*)&w)[i] = b` */
  function SetByte(w: u32, i: nat, b: u8): u32
    requires i < 4
  {
    Word(if i == 0 then b else ByteOf(w, 0), if i == 1 then b else ByteOf(w, 1),
         if i == 2 then b else ByteOf(w, 2), if i == 3 then b else ByteOf(w, 3))
  }

  function ByteAt(ws: seq<u32>, i: nat): u8
    requires i < 4 * |ws|
  {
    ByteOf(ws[i / 4], i % 4)
  }

  function Bytes(ws: seq<u32>, lo: nat, n: nat): (bs: seq<u8>)
    requires lo + n <= 4 * |ws|
    ensures |bs| == n
  {
    seq<u8>(n, i requires 0 <= i < n => ByteAt(ws, lo + i))
  }

  function PackBytes(bs: seq<u8>): (ws: seq<u32>)
    requires |bs| % 4 == 0
    ensures |ws| == |bs| / 4
  {
    seq<u32>(|bs| / 4, k requires 0 <= k < |bs| / 4 => Word(bs[4 * k], bs[4 * k + 1], bs[4 * k + 2], bs[4 * k + 3]))
  }

  function PadCount(n: nat): (p: nat)
    ensures p < 4 && (n + p) % 4 == 0
  {
    (4 - n % 4) % 4
  }

  function Padded(bs: seq<u8>, v: u8): (ps: seq<u8>)
    ensures |ps| % 4 == 0 && |ps| == |bs| + PadCount(|bs|) && |ps| / 4 == (|bs| + 3) / 4
  {
    bs + Fill(PadCount(|bs|), v)
  }

  lemma WordBytes(b0: u8, b1: u8, b2: u8, b3: u8)
    ensures var w := Word(b0, b1, b2, b3);
            ByteOf(w, 0) == b0 && ByteOf(w, 1) == b1 && ByteOf(w, 2) == b2 && ByteOf(w, 3) == b3
  {
    var w := Word(b0, b1, b2, b3);
    assert w / 0x100 == b1 + b2 * 0x100 + b3 * 0x1_0000;
    assert w / 0x1_0000 == b2 + b3 * 0x100;
  }

  lemma BytesWord(w: u32)
    ensures Word(ByteOf(w, 0), ByteOf(w, 1), ByteOf(w, 2), ByteOf(w, 3)) == w
  {
    assert w / 0x1_0000 == w / 0x100 / 0x100;
    assert w / 0x100_0000 == w / 0x1_0000 / 0x100;
  }

  lemma SetByteBytes(w: u32, i: nat, b: u8)
    requires i < 4
    ensures forall j :: 0 <= j < 4 ==> ByteOf(SetByte(w, i, b), j) == if j == i then b else ByteOf(w, j)
  {
    WordBytes(if i == 0 then b else ByteOf(w, 0), if i == 1 then b else ByteOf(w, 1),
              if i == 2 then b else ByteOf(w, 2), if i == 3 then b else ByteOf(w, 3));
  }

  /** Reading back the bytes of packed words gives the bytes that were packed. */
  lemma PackedByte(bs: seq<u8>, i: nat)
    requires |bs| % 4 == 0 && i < |bs|
    ensures ByteAt(PackBytes(bs), i) == bs[i]
  {
    var k := i / 4;
    WordBytes(bs[4 * k], bs[4 * k + 1], bs[4 * k + 2], bs[4 * k + 3]);
    assert i == 4 * k + i % 4;
  }

  lemma ByteIndex(ws: seq<u32>, k: nat, j: nat)
    requires k < |ws| && j < 4
    ensures ByteAt(ws, 4 * k + j) == ByteOf(ws[k], j)
  {
    assert (4 * k + j) / 4 == k && (4 * k + j) % 4 == j;
  }

  lemma HalfIndex(ws: seq<u32>, k: nat, j: nat)
    requires k < |ws| && j < 2
    ensures HalfAt(ws, 2 * k + j) == HalfOf(ws[k], j)
  {
    assert (2 * k + j) / 2 == k && (2 * k + j) % 2 == j;
  }

  /** Words are determined by their bytes. */
  lemma WordsFromBytes(ws: seq<u32>, bs: seq<u8>)
    requires |bs| == 4 * |ws|
    requires forall i :: 0 <= i < |bs| ==> ByteAt(ws, i) == bs[i]
    ensures ws == PackBytes(bs)
  {
    hide ByteAt, ByteOf, Word;
    forall k | 0 <= k < |ws|
      ensures ws[k] == PackBytes(bs)[k]
    {
      BytesWord(ws[k]);
      ByteIndex(ws, k, 0);
      ByteIndex(ws, k, 1);
      ByteIndex(ws, k, 2);
      ByteIndex(ws, k, 3);
    }
  }

  /** The words `ws` stand in `w` from index `off`. */
  predicate At(w: seq<int>, off: nat, ws: seq<int>)
    ensures At(w, off, ws) ==> off + |ws| <= |w|
  {
    off + |ws| <= |w| && w[off..off + |ws|] == ws
  }

  lemma AtSplit(w: seq<int>, off: nat, a: seq<int>, b: seq<int>)
    ensures At(w, off, a + b) <==> At(w, off, a) && At(w, off + |a|, b)
  {
    if off + |a| + |b| <= |w| {
      var s := w[off..off + |a + b|];
      assert s[..|a|] == w[off..off + |a|] && s[|a|..] == w[off + |a|..off + |a| + |b|];
      if s == a + b {
        assert s[..|a|] == a && s[|a|..] == b;
      }
    }
  }

  lemma AtIndex(w: seq<int>, off: nat, ws: seq<int>, i: nat)
    requires At(w, off, ws) && i < |ws|
    ensures w[off + i] == ws[i]
  {
    assert w[off..off + |ws|][i] == w[off + i];
  }

  lemma AtDrop(w: seq<int>, off: nat, ws: seq<int>)
    requires At(w, off, ws)
    ensures off + |ws| <= |w| && w[off..][..|ws|] == ws
  {
    assert w[off..][..|ws|] == w[off..off + |ws|];
  }

  /** Packed bytes standing in `w` are seen by the byte view. */
  lemma BytesAt(w: seq<u32>, off: nat, bs: seq<u8>)
    requires |bs| % 4 == 0 && At(w, off, PackBytes(bs))
    ensures Bytes(w, 4 * off, |bs|) == bs
  {
    forall i | 0 <= i < |bs|
      ensures ByteAt(w, 4 * off + i) == bs[i]
    {
      PackedByte(bs, i);
      AtIndex(w, off, PackBytes(bs), i / 4);
      assert (4 * off + i) / 4 == off + i / 4 && (4 * off + i) % 4 == i % 4;
    }
  }

  // ----- half words and quad words -----

  function HalfOf(w: u32, i: nat): u16
    requires i < 2
  {
    if i == 0 then w % 0x1_0000 else w / 0x1_0000
  }

  function HalfPair(h0: u16, h1: u16): u32 { h0 + h1 * 0x1_0000 }

  /** `((uint16_t*)&w)[i] = h` */
  function SetHalf(w: u32, i: nat, h: u16): u32
    requires i < 2
  {
    HalfPair(if i == 0 then h else HalfOf(w, 0), if i == 1 then h else HalfOf(w, 1))
  }

  function HalfAt(ws: seq<u32>, i: nat): u16
    requires i < 2 * |ws|
  {
    HalfOf(ws[i / 2], i % 2)
  }

  function Halves(ws: seq<u32>, lo: nat, n: nat): (hs: seq<u16>)
    requires 2 * lo + n <= 2 * |ws|
    ensures |hs| == n
  {
    seq<u16>(n, i requires 0 <= i < n => HalfAt(ws, 2 * lo + i))
  }

  function PackHalves(hs: seq<u16>): (ws: seq<u32>)
    requires |hs| % 2 == 0
    ensures |ws| == |hs| / 2
  {
    seq<u32>(|hs| / 2, k requires 0 <= k < |hs| / 2 => HalfPair(hs[2 * k], hs[2 * k + 1]))
  }

  lemma PackedHalf(hs: seq<u16>, i: nat)
    requires |hs| % 2 == 0 && i < |hs|
    ensures HalfAt(PackHalves(hs), i) == hs[i]
  {
    var k := i / 2;
    assert i == 2 * k + i % 2;
  }

  lemma SetHalfHalves(w: u32, i: nat, h: u16)
    requires i < 2
    ensures forall j :: 0 <= j < 2 ==> HalfOf(SetHalf(w, i, h), j) == if j == i then h else HalfOf(w, j)
  {
  }

  lemma WordsFromHalves(ws: seq<u32>, hs: seq<u16>)
    requires |hs| == 2 * |ws|
    requires forall i :: 0 <= i < |hs| ==> HalfAt(ws, i) == hs[i]
    ensures ws == PackHalves(hs)
  {
    forall k | 0 <= k < |ws|
      ensures ws[k] == PackHalves(hs)[k]
    {
      HalfIndex(ws, k, 0);
      HalfIndex(ws, k, 1);
    }
  }

  function Quad(lo: u32, hi: u32): u64 { lo + hi * 0x1_0000_0000 }

  function QuadLo(q: u64): u32 { q % 0x1_0000_0000 }

  function QuadHi(q: u64): u32 { q / 0x1_0000_0000 }

  function Quads(ws: seq<u32>, lo: nat, n: nat): (qs: seq<u64>)
    requires lo + 2 * n <= |ws|
    ensures |qs| == n
  {
    seq<u64>(n, i requires 0 <= i < n => Quad(ws[lo + 2 * i], ws[lo + 2 * i + 1]))
  }

  function PackQuads(qs: seq<u64>): (ws: seq<u32>)
    ensures |ws| == 2 * |qs|
  {
    seq<u32>(2 * |qs|, k requires 0 <= k < 2 * |qs| => if k % 2 == 0 then QuadLo(qs[k / 2]) else QuadHi(qs[k / 2]))
  }
}

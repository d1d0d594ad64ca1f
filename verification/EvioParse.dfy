/** The stream parser together with its tree-building callbacks, as a function on words. */
module EvioParse {
  import opened Words
  import opened EvioTree

  /** `Overrun` and `BadLength` stand for inputs on which the source reads outside the buffer or
      asks for a negative amount of data; `IllegalContent` is its exception. */
  datatype Fault = Overrun | BadLength | IllegalContent

  datatype Head = Head(len: nat, tag: u16, num: u8, code: u8, padding: nat)

  function HeadAt(w: seq<u32>, off: nat, bt: ContainerType): (r: Result<Head, Fault>)
    ensures r.Ok? ==> off + bt.HeaderLen() <= |w| && r.value.len >= 1
  {
    if off + bt.HeaderLen() > |w| then Err(Overrun)
    else if bt.IsBank() then
      var len: int := w[off];
      var h := w[off + 1];
      Ok(Head(len + 1, h / 0x1_0000, h % 0x100, h / 0x100 % 0x40, h / 0x4000 % 4))
    else if bt.IsSegment() then
      Ok(Head(w[off] % 0x1_0000 + 1, w[off] / 0x100_0000, 0, w[off] / 0x1_0000 % 0x40, w[off] / 0x40_0000 % 4))
    else
      Ok(Head(w[off] % 0x1_0000 + 1, w[off] / 0x10_0000, 0, w[off] / 0x1_0000 % 0x10, 0))
  }

  /** Container content types a 6-bit field can hold. */
  function ContainerOf(code: u8): Option<ContainerType> {
    match code
    case 0xe => Some(Bank)
    case 0x10 => Some(Bank10)
    case 0xd => Some(Segment)
    case 0x20 => Some(Segment20)
    case 0xc => Some(TagSegment)
    case 0x40 => Some(TagSegment40)
    case _ => None
  }

  // ----- leaves -----

  /** Length of the C string at the start of `b`: the index of the first NUL, or |b|. */
  function CStrLen(b: seq<u8>): (k: nat)
    ensures k <= |b|
    ensures forall i :: 0 <= i < k ==> b[i] != 0
    ensures k < |b| ==> b[k] == 0
  {
    if b == [] || b[0] == 0 then 0 else 1 + CStrLen(b[1..])
  }

  /** The DOM reader's string loop.  `b` is everything from the payload to the end of the buffer,
      `limit` the number of payload bytes left. */
  function ReadStrings(b: seq<u8>, limit: int): Result<seq<seq<u8>>, Fault>
    decreases |b|
  {
    if limit <= 0 || b == [] || b[0] == EOT then Ok([])
    else
      var k := CStrLen(b);
      if k == |b| then Err(Overrun)
      else
        var rest :- ReadStrings(b[k + 1..], limit - (k + 1));
        Ok([b[..k]] + rest)
  }

  function ReadComposite(w: seq<u32>, base: nat): Result<Payload, Fault>
    requires base <= |w|
  {
    if base == |w| then Err(Overrun)
    else
      var formatLen := w[base] % 0x1_0000;
      var b := Bytes(w, 4 * (base + 1), 4 * (|w| - base - 1));
      var k := CStrLen(b);
      if k == |b| || base + 2 + formatLen >= |w| then Err(Overrun)
      else if w[base + 1 + formatLen] == 0 then Err(BadLength)
      else
        var n := w[base + 1 + formatLen] - 1;
        if base + 3 + formatLen + n > |w| then Err(Overrun)
        else
          Ok(Composite(w[base] / 0x10_0000, b[..k], w[base + 2 + formatLen] / 0x1_0000,
                       w[base + 2 + formatLen] % 0x100, w[base + 3 + formatLen..][..n]))
  }

  /** `leafNodeHandler`, with the data length its caller computes from the `n` payload words at `base`. */
  function ReadLeaf(w: seq<u32>, base: nat, n: nat, code: u8, padding: nat): Result<Payload, Fault>
    requires base + n <= |w|
  {
    match code
    case 0x0 => Ok(Words32(Unknown32, w[base..][..n]))
    case 0x1 => Ok(Words32(UInt32, w[base..][..n]))
    case 0x2 => Ok(Words32(Float32, w[base..][..n]))
    case 0xb => Ok(Words32(Int32, w[base..][..n]))
    case 0x3 =>
      var ss :- ReadStrings(Bytes(w, 4 * base, 4 * (|w| - base)), 4 * n - padding);
      Ok(Text(ss))
    case 0x4 => ReadHalves(w, base, 2 * n - padding / 2, Int16)
    case 0x5 => ReadHalves(w, base, 2 * n - padding / 2, UInt16)
    case 0x6 => ReadBytes(w, base, 4 * n - padding, Int8)
    case 0x7 => ReadBytes(w, base, 4 * n - padding, UInt8)
    case 0x8 => Ok(Words64(Double, Quads(w, base, n / 2)))
    case 0x9 => Ok(Words64(Int64, Quads(w, base, n / 2)))
    case 0xa => Ok(Words64(UInt64, Quads(w, base, n / 2)))
    case 0xf => ReadComposite(w, base)
    case _ => Err(IllegalContent)
  }

  function ReadHalves(w: seq<u32>, base: nat, n: int, kind: Kind16): Result<Payload, Fault>
    requires 2 * base + n <= 2 * |w|
  {
    if n < 0 then Err(BadLength) else Ok(Words16(kind, Halves(w, base, n)))
  }

  function ReadBytes(w: seq<u32>, base: nat, n: int, kind: Kind8): Result<Payload, Fault>
    requires 4 * base + n <= 4 * |w|
  {
    if n < 0 then Err(BadLength) else Ok(Words8(kind, Bytes(w, 4 * base, n)))
  }

  // ----- the recursion -----

  function ParseAt(w: seq<u32>, off: nat, bt: ContainerType): (r: Result<Node, Fault>)
    requires off <= |w|
    ensures r.Ok? ==> HeadAt(w, off, bt).Ok? && off + HeadAt(w, off, bt).value.len <= |w|
    decreases |w| - off, 0
  {
    var h :- HeadAt(w, off, bt);
    var base := off + bt.HeaderLen();
    if off + h.len > |w| then Err(Overrun)
    else
      match ContainerOf(h.code)
      case Some(ct) =>
        var kids :- ParseKids(w, base, off + h.len, ct);
        Ok(Container(h.tag, h.num, ct, kids))
      case None =>
        if h.len < bt.HeaderLen() then Err(BadLength)
        else
          var p :- ReadLeaf(w, base, h.len - bt.HeaderLen(), h.code, h.padding);
          Ok(Leaf(h.tag, h.num, p))
  }

  /** The loop over the banks between `p` and `end`. */
  function ParseKids(w: seq<u32>, p: nat, end: nat, ct: ContainerType): Result<seq<Node>, Fault>
    requires p <= |w| && end <= |w|
    decreases |w| - p, 1
  {
    if p >= end then Ok([])
    else
      var kid :- ParseAt(w, p, ct);
      var rest :- ParseKids(w, p + HeadAt(w, p, ct).value.len, end, ct);
      Ok([kid] + rest)
  }

  /** `evioStreamParser::parse` */
  function Parse(w: seq<u32>): Result<Node, Fault> { ParseAt(w, 0, Bank) }
}

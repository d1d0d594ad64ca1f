/** What the writer returns or throws for a given buffer size, and how that relates to the length
    predictor. */
module EvioSize {
  import opened Words
  import opened EvioTree

  datatype WriteError = IllegalSize | TooSmall | TooLong | IllegalLeaf

  /** The closing length check: only banks have more than 16 bits for it. */
  function Finish(bt: ContainerType, n: nat): Result<nat, WriteError> {
    if !bt.IsBank() && n > 0x1_0000 then Err(TooLong) else Ok(n)
  }

  /** Result of serializing `t`, child of a `bt`, into `size` words. */
  function WriteResult(t: Node, bt: ContainerType, size: int): Result<nat, WriteError>
    decreases t, 1
  {
    if size <= 0 then Err(IllegalSize)
    else
      match t
      case Leaf(_, _, p) =>
        if bt.HeaderLen() + PayloadLen(p) > size && p != Text([]) then Err(TooSmall)
        else Finish(bt, bt.HeaderLen() + PayloadLen(p))
      case Container(_, _, ct, kids) =>
        if !ct.IsContainer() then Err(IllegalLeaf)
        else
          var n :- WriteKidsResult(kids, ct, bt.HeaderLen(), size);
          Finish(bt, n)
  }

  /** The loop over the children, entered with `pos` words in use. */
  function WriteKidsResult(kids: seq<Node>, ct: ContainerType, pos: nat, size: int): Result<nat, WriteError>
    decreases kids, 0
  {
    if kids == [] then Ok(pos)
    else
      var n :- WriteResult(kids[0], ct, size - pos - 1);
      if pos + n > size then Err(TooSmall)
      else WriteKidsResult(kids[1..], ct, pos + n, size)
  }

  /** The smallest buffer that will do.  Every level of nesting holds one word back from its children. */
  function Need(t: Node, bt: ContainerType): (n: nat)
    ensures n >= 1
    decreases t, 1
  {
    match t
    case Leaf(_, _, p) => if p == Text([]) then 1 else bt.HeaderLen() + PayloadLen(p)
    case Container(_, _, ct, kids) => NeedKids(kids, ct, bt.HeaderLen())
  }

  function NeedKids(kids: seq<Node>, ct: ContainerType, pos: nat): (n: nat)
    ensures n >= 1
    decreases kids, 0
  {
    if kids == [] then 1
    else Max(pos + 1 + Need(kids[0], ct), NeedKids(kids[1..], ct, pos + Len(kids[0], ct)))
  }

  /** No composite leaf has an oversized format string. */
  predicate FormatsFit(t: Node)
    decreases t, 1
  {
    match t
    case Leaf(_, _, p) => p.FormatFits()
    case Container(_, _, _, kids) => FormatsFitKids(kids)
  }

  predicate FormatsFitKids(kids: seq<Node>)
    decreases kids, 0
  {
    kids == [] || (FormatsFit(kids[0]) && FormatsFitKids(kids[1..]))
  }

  // ----- the writer succeeds exactly when there is room and the lengths fit -----

  /** The length overshoots the need by at most a word: an empty bank needs one and takes two. */
  lemma {:induction false} LenWithinNeed(t: Node, bt: ContainerType)
    ensures Len(t, bt) <= Max(Need(t, bt), bt.HeaderLen())
    decreases t, 1
  {
    match t
    case Leaf(_, _, _) =>
    case Container(_, _, ct, kids) => LenWithinNeedKids(kids, ct, bt.HeaderLen());
  }

  lemma {:induction false} LenWithinNeedKids(kids: seq<Node>, ct: ContainerType, pos: nat)
    ensures pos + LenKids(kids, ct) <= Max(NeedKids(kids, ct, pos), pos)
    decreases kids, 0
  {
    hide PayloadLen;
    if kids != [] {
      LenWithinNeed(kids[0], ct);
      LenWithinNeedKids(kids[1..], ct, pos + Len(kids[0], ct));
    }
  }

  /** The writer succeeds if and only if the tree is writable and the buffer holds what it needs; it
      then returns the tree's length. */
  lemma {:induction false} WriteExact(t: Node, bt: ContainerType, size: int)
    requires size < MAX_WORDS && FormatsFit(t)
    ensures WriteResult(t, bt, size).Ok? <==> Writable(t, bt) && Need(t, bt) <= size
    ensures WriteResult(t, bt, size).Ok? ==> WriteResult(t, bt, size).value == Len(t, bt)
    decreases t, 1
  {
    hide PayloadLen;
    LenWithinNeed(t, bt);
    match t
    case Leaf(_, _, p) =>
    case Container(_, _, ct, kids) =>
      if size > 0 && ct.IsContainer() {
        WriteKidsExact(kids, ct, bt.HeaderLen(), size);
      }
  }

  lemma {:induction false} WriteKidsExact(kids: seq<Node>, ct: ContainerType, pos: nat, size: int)
    requires size < MAX_WORDS && FormatsFitKids(kids) && size > 0
    ensures var r := WriteKidsResult(kids, ct, pos, size);
            && (r.Ok? <==> WritableKids(kids, ct) && NeedKids(kids, ct, pos) <= size)
            && (r.Ok? ==> r.value == pos + LenKids(kids, ct))
    decreases kids, 0
  {
    hide PayloadLen, Need, Len, Writable, WriteResult, FormatsFit;
    if kids != [] {
      WriteExact(kids[0], ct, size - pos - 1);
      LenWithinNeed(kids[0], ct);
      WriteKidsExact(kids[1..], ct, pos + Len(kids[0], ct), size);
    }
  }

  // ----- the length predictor -----

  function PredictedLen(t: Node, bt: ContainerType): Result<nat, WriteError>
    decreases t, 1
  {
    match t
    case Leaf(_, _, p) =>
      if p.Composite? then Err(IllegalLeaf) else Ok(bt.HeaderLen() + PayloadLen(p))
    case Container(_, _, ct, kids) =>
      if !ct.IsContainer() then Err(IllegalLeaf)
      else PredictedKidsLen(kids, ct, bt.HeaderLen())
  }

  function PredictedKidsLen(kids: seq<Node>, ct: ContainerType, pos: nat): Result<nat, WriteError>
    decreases kids, 0
  {
    if kids == [] then Ok(pos)
    else
      var n :- PredictedLen(kids[0], ct);
      PredictedKidsLen(kids[1..], ct, pos + n)
  }

  predicate Predictable(t: Node)
    decreases t, 1
  {
    match t
    case Leaf(_, _, p) => !p.Composite?
    case Container(_, _, ct, kids) => ct.IsContainer() && PredictableKids(kids)
  }

  predicate PredictableKids(kids: seq<Node>)
    decreases kids, 0
  {
    kids == [] || (Predictable(kids[0]) && PredictableKids(kids[1..]))
  }

  /** The predictor answers for exactly the trees without composite leaves, and answers with the
      length the writer will return. */
  lemma {:induction false} PredictionExact(t: Node, bt: ContainerType)
    ensures PredictedLen(t, bt).Ok? <==> Predictable(t)
    ensures Predictable(t) ==> PredictedLen(t, bt) == Ok(Len(t, bt)) && FormatsFit(t)
    decreases t, 1
  {
    hide PayloadLen;
    match t
    case Leaf(_, _, _) =>
    case Container(_, _, ct, kids) => PredictionKidsExact(kids, ct, bt.HeaderLen());
  }

  lemma {:induction false} PredictionKidsExact(kids: seq<Node>, ct: ContainerType, pos: nat)
    ensures PredictedKidsLen(kids, ct, pos).Ok? <==> PredictableKids(kids)
    ensures PredictableKids(kids) ==>
            PredictedKidsLen(kids, ct, pos) == Ok(pos + LenKids(kids, ct)) && FormatsFitKids(kids)
    decreases kids, 0
  {
    hide PayloadLen;
    if kids != [] {
      PredictionExact(kids[0], ct);
      PredictionKidsExact(kids[1..], ct, pos + Len(kids[0], ct));
    }
  }

  // ----- how much more than its length a tree needs -----

  function Height(t: Node): nat
    decreases t, 1
  {
    match t
    case Leaf(_, _, _) => 0
    case Container(_, _, _, kids) => if kids == [] then 0 else 1 + HeightKids(kids)
  }

  function HeightKids(kids: seq<Node>): nat
    decreases kids, 0
  {
    if kids == [] then 0 else Max(Height(kids[0]), HeightKids(kids[1..]))
  }

  lemma {:induction false} NeedBound(t: Node, bt: ContainerType)
    ensures Need(t, bt) <= Len(t, bt) + Height(t)
    decreases t, 1
  {
    hide PayloadLen;
    match t
    case Leaf(_, _, _) =>
    case Container(_, _, ct, kids) => NeedKidsBound(kids, ct, bt.HeaderLen());
  }

  lemma {:induction false} NeedKidsBound(kids: seq<Node>, ct: ContainerType, pos: nat)
    ensures NeedKids(kids, ct, pos) <= if kids == [] then 1 else pos + LenKids(kids, ct) + 1 + HeightKids(kids)
    decreases kids, 0
  {
    hide PayloadLen, Need, Len, Height;
    if kids != [] {
      NeedBound(kids[0], ct);
      NeedKidsBound(kids[1..], ct, pos + Len(kids[0], ct));
    }
  }

  /** Predict, allocate that much plus a word per level, write: the writer returns the prediction,
      provided no length but a bank's exceeds 16 bits. */
  lemma PredictThenWrite(t: Node, size: int)
    requires Predictable(t) && Writable(t, Bank)
    requires Len(t, Bank) + Height(t) <= size < MAX_WORDS
    ensures WriteResult(t, Bank, size) == PredictedLen(t, Bank)
  {
    PredictionExact(t, Bank);
    NeedBound(t, Bank);
    WriteExact(t, Bank, size);
  }
}

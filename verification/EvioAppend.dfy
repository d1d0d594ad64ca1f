/** `appendToBuffer`: a serialized bank appended to a serialized container, without taking it apart. */
module EvioAppend {
  import opened Words
  import opened EvioTree
  import Parse = EvioParse
  import Around = EvioAround
  import RoundTrip = EvioRoundTrip

  datatype AppendError = TypesDiffer | TooLong | Overrun

  /** The container types the function is called with. */
  predicate Basic(ct: ContainerType) { ct in {Bank, Segment, TagSegment} }

  /** 32-bit unsigned arithmetic. */
  function Wrap(x: int): u32 { x % 0x1_0000_0000 }

  function ContentCode(buffer: seq<u32>, bt: ContainerType): u8
    requires Basic(bt) && bt.HeaderLen() <= |buffer|
  {
    if bt == Bank then buffer[1] / 0x100 % 0x40
    else if bt == Segment then buffer[0] / 0x1_0000 % 0x40
    else buffer[0] / 0x1_0000 % 0x10
  }

  /** `+` binds tighter than `&`: for segments the mask is 0x10000, not 0xffff. */
  function BufferLength(buffer: seq<u32>, bt: ContainerType): u32
    requires |buffer| >= 1
  {
    if bt == Bank then Wrap(buffer[0] as int + 1) else buffer[0] / 0x1_0000 % 2 * 0x1_0000
  }

  /** For segments the source looks at the buffer's header, not at the structure's. */
  function StructureLength(buffer: seq<u32>, structure: seq<u32>, st: ContainerType): u32
    requires |buffer| >= 1 && |structure| >= 1
  {
    if st == Bank then Wrap(structure[0] as int + 1) else buffer[0] % 0x1_0000 + 1
  }

  /** The two lengths the new buffer is made of, or why there is none; Overrun stands for a copy of
      words beyond the end of an input or a store beyond that of the new buffer. */
  function Lengths(buffer: seq<u32>, bt: ContainerType, structure: seq<u32>, st: ContainerType)
    : (r: Result<(nat, nat), AppendError>)
    requires Basic(bt) && Basic(st) && bt.HeaderLen() <= |buffer| && st.HeaderLen() <= |structure|
    ensures r.Ok? ==> r.value.0 <= |buffer| && r.value.1 <= |structure| && r.value.0 + r.value.1 > 0
  {
    var m, n := BufferLength(buffer, bt), StructureLength(buffer, structure, st);
    if ContentCode(buffer, bt) != st.Code() then Err(TypesDiffer)
    else if m as int + n as int > (if bt == Bank then 0xffff_ffff else 0xffff) then Err(TooLong)
    else if m > |buffer| || n > |structure| || m as int + n as int == 0 then Err(Overrun)
    else Ok((m, n))
  }

  /** The words of the new buffer. */
  function Appended(buffer: seq<u32>, bt: ContainerType, structure: seq<u32>, st: ContainerType)
    : Result<seq<u32>, AppendError>
    requires Basic(bt) && Basic(st) && bt.HeaderLen() <= |buffer| && st.HeaderLen() <= |structure|
  {
    var (m, n) :- Lengths(buffer, bt, structure, st);
    var joined := buffer[..m] + structure[..n];
    Ok(joined[0 := Wrap(joined[0] as int + n as int)])
  }

  method CopyWords(src: array<u32>, n: nat, dst: array<u32>, at: nat)
    requires src != dst && n <= src.Length && at + n <= dst.Length
    modifies dst
    ensures dst[at..at + n] == src[..n]
    ensures forall i :: 0 <= i < at ==> dst[i] == old(dst[i])
  {
    for i := 0 to n
      invariant dst[at..at + i] == src[..i]
      invariant forall j :: 0 <= j < at ==> dst[j] == old(dst[j])
    {
      dst[at + i] := src[i];
    }
  }

  method AppendToBuffer(buffer: array<u32>, bt: ContainerType, structure: array<u32>, st: ContainerType)
    returns (r: Result<array<u32>, AppendError>)
    requires Basic(bt) && Basic(st) && bt.HeaderLen() <= buffer.Length && st.HeaderLen() <= structure.Length
    ensures r.Ok? <==> Appended(buffer[..], bt, structure[..], st).Ok?
    ensures r.Ok? ==> fresh(r.value) && r.value[..] == Appended(buffer[..], bt, structure[..], st).value
    ensures r.Err? ==> r.error == Appended(buffer[..], bt, structure[..], st).error
  {
    hide Lengths;
    var lengths := CheckLengths(buffer, bt, structure, st);
    if lengths.Err? {
      return Err(lengths.error);
    }
    var newBuffer := Joined(buffer, lengths.value.0, structure, lengths.value.1);
    r := Ok(newBuffer);
  }

  /** The tests before anything is copied. */
  method CheckLengths(buffer: array<u32>, bt: ContainerType, structure: array<u32>, st: ContainerType)
    returns (r: Result<(nat, nat), AppendError>)
    requires Basic(bt) && Basic(st) && bt.HeaderLen() <= buffer.Length && st.HeaderLen() <= structure.Length
    ensures r == Lengths(buffer[..], bt, structure[..], st)
  {
    var content := if bt == Bank then buffer[1] / 0x100 % 0x40
                   else if bt == Segment then buffer[0] / 0x1_0000 % 0x40
                   else buffer[0] / 0x1_0000 % 0x10;
    if content != st.Code() {
      return Err(TypesDiffer);
    }
    var bufferLength: u32 := if bt == Bank then Wrap(buffer[0] as int + 1) else buffer[0] / 0x1_0000 % 2 * 0x1_0000;
    var structureLength: u32 := if st == Bank then Wrap(structure[0] as int + 1) else buffer[0] % 0x1_0000 + 1;
    var total := bufferLength as int + structureLength as int;
    if total > (if bt == Bank then 0xffff_ffff else 0xffff) {
      return Err(TooLong);
    }
    if bufferLength > buffer.Length || structureLength > structure.Length || total == 0 {
      return Err(Overrun);
    }
    r := Ok((bufferLength, structureLength));
  }

  method Joined(a: array<u32>, m: nat, b: array<u32>, n: nat) returns (c: array<u32>)
    requires m <= a.Length && n <= b.Length && m + n > 0
    ensures var joined := a[..][..m] + b[..][..n];
            fresh(c) && c[..] == joined[0 := Wrap(joined[0] as int + n as int)]
  {
    c := new u32[m + n](_ => 0);
    CopyWords(a, m, c, 0);
    ghost var front := c[..m];
    CopyWords(b, n, c, m);
    assert c[..m] == front && c[..] == c[..m] + c[m..m + n];
    assert a[..][..m] == a[..m] && b[..][..n] == b[..n];
    c[0] := Wrap(c[0] as int + n as int);
  }

  // ----- when the result is the longer container -----

  lemma {:induction false} LenKidsAppend(kids: seq<Node>, kid: Node, ct: ContainerType)
    requires WritableKids(kids, ct) && Writable(kid, ct)
    ensures WritableKids(kids + [kid], ct) && LenKids(kids + [kid], ct) == LenKids(kids, ct) + Len(kid, ct)
  {
    hide Writable, Len;
    if kids == [] {
      assert [kid][1..] == [];
    } else {
      assert (kids + [kid])[1..] == kids[1..] + [kid];
      LenKidsAppend(kids[1..], kid, ct);
    }
  }

  lemma {:induction false} SerKidsAppend(kids: seq<Node>, kid: Node, ct: ContainerType)
    requires WritableKids(kids, ct) && Writable(kid, ct)
    ensures WritableKids(kids + [kid], ct) && LenKids(kids + [kid], ct) == LenKids(kids, ct) + Len(kid, ct)
    ensures SerKids(kids + [kid], ct) == SerKids(kids, ct) + Ser(kid, ct)
  {
    LenKidsAppend(kids, kid, ct);
    hide Ser, Writable, Len, LenKids, SerKids, WritableKids;
    SerNone(ct);
    if kids == [] {
      assert kids + [kid] == [kid];
      SerSingle(kid, ct);
    } else {
      SerFirst(kids, ct);
      SerKidsAppend(kids[1..], kid, ct);
      FirstKept(kids, kid, ct);
      SerFirst(kids + [kid], ct);
      Associative(Ser(kids[0], ct), SerKids(kids[1..], ct), Ser(kid, ct));
    }
  }

  lemma FirstKept(kids: seq<Node>, kid: Node, ct: ContainerType)
    requires kids != [] && WritableKids(kids + [kid], ct)
    ensures (kids + [kid])[0] == kids[0] && (kids + [kid])[1..] == kids[1..] + [kid]
  {
  }

  lemma Associative(a: seq<u32>, b: seq<u32>, c: seq<u32>)
    ensures a + (b + c) == a + b + c
  {
  }

  lemma SerSingle(kid: Node, ct: ContainerType)
    requires Writable(kid, ct) && WritableKids([kid], ct)
    ensures SerKids([kid], ct) == Ser(kid, ct)
  {
    assert [kid][1..] == [];
  }

  lemma SerNone(ct: ContainerType)
    ensures WritableKids([], ct) && SerKids([], ct) == []
  {
  }

  lemma SerFirst(kids: seq<Node>, ct: ContainerType)
    requires kids != [] && WritableKids(kids, ct)
    ensures Writable(kids[0], ct) && WritableKids(kids[1..], ct)
    ensures SerKids(kids, ct) == Ser(kids[0], ct) + SerKids(kids[1..], ct)
  {
  }

  function Longer(t: Node, kid: Node): Node
    requires t.Container?
  {
    t.(kids := t.kids + [kid])
  }

  lemma HeaderContent(bt: ContainerType, tag: u16, num: u8, ct: ContainerType, len: nat)
    requires 1 <= len <= (if bt.IsBank() then MAX_WORDS else 0x1_0000) && Basic(bt) && Basic(ct)
    ensures var h := Header(bt, tag, num, ct.Code(), len, 0);
            && ContentCode(h, bt) == ct.Code()
            && (if bt == Bank then h[0] == len - 1 else h[0] % 0x1_0000 == len - 1)
            && BufferLength(h, bt) == if bt == Bank then len else ct.Code() % 2 * 0x1_0000
  {
    hide OrBit;
    var code := ct.Code();
    if bt == Bank {
      RoundTrip.BankFields(tag, 0, code, num);
    } else if bt == Segment {
      SegmentContent(tag % 0x100, code, len - 1);
    } else {
      OrBitBound(tag % 0x1000, code);
      TagSegmentContent(OrBit(tag % 0x1000, 0), code, len - 1);
    }
  }

  lemma Parts(high: nat, low: nat)
    requires low < 0x1_0000
    ensures (high * 0x1_0000 + low) / 0x1_0000 == high && (high * 0x1_0000 + low) % 0x1_0000 == low
  {
  }

  lemma Low(high: nat, low: nat)
    requires low < 0x10
    ensures (high * 0x10 + low) % 0x10 == low
  {
  }

  lemma LowSix(high: nat, low: nat)
    requires low < 0x40
    ensures (high * 0x40 + low) % 0x40 == low
  {
  }

  lemma Parity(half: nat, low: nat)
    ensures (2 * half + low) % 2 == low % 2
  {
  }

  lemma SegmentContent(tag: nat, code: u8, len: nat)
    requires tag < 0x100 && code < 0x10 && len < 0x1_0000
    ensures var w := tag * 0x100_0000 + code * 0x1_0000 + len;
            w / 0x1_0000 % 0x40 == code && w % 0x1_0000 == len && w / 0x1_0000 % 2 == code % 2
  {
    var w := tag * 0x100_0000 + code * 0x1_0000 + len;
    Parts(tag * 0x100 + code, len);
    LowSix(tag * 4, code);
    Parity(tag * 0x80, code);
  }

  lemma TagSegmentContent(tag: nat, code: u8, len: nat)
    requires tag < 0x1000 && code < 0x10 && len < 0x1_0000
    ensures var w := tag * 0x10_0000 + code * 0x1_0000 + len;
            w / 0x1_0000 % 0x10 == code && w % 0x1_0000 == len && w / 0x1_0000 % 2 == code % 2
  {
    var w := tag * 0x10_0000 + code * 0x1_0000 + len;
    Parts(tag * 0x10 + code, len);
    Low(tag, code);
    Parity(tag * 8, code);
  }

  lemma SerHeader(t: Node, bt: ContainerType)
    requires t.Container? && Writable(t, bt) && Basic(bt) && Basic(t.ctype)
    ensures var w := Ser(t, bt);
            && ContentCode(w, bt) == t.ctype.Code()
            && (if bt == Bank then w[0] == Len(t, bt) - 1 else w[0] % 0x1_0000 == Len(t, bt) - 1)
            && BufferLength(w, bt) == if bt == Bank then Len(t, bt) else t.ctype.Code() % 2 * 0x1_0000
  {
    hide Header, SerKids, LenKids, WritableKids, ContentCode, BufferLength;
    HeaderContent(bt, t.tag, t.num, t.ctype, Len(t, bt));
    HeaderOnly(Header(bt, t.tag, t.num, t.ctype.Code(), Len(t, bt), 0), SerKids(t.kids, t.ctype), bt);
  }

  lemma HeaderOnly(h: seq<u32>, s: seq<u32>, bt: ContainerType)
    requires Basic(bt) && |h| == bt.HeaderLen()
    ensures (h + s)[0] == h[0] && ContentCode(h + s, bt) == ContentCode(h, bt)
    ensures BufferLength(h + s, bt) == BufferLength(h, bt)
  {
  }

  /** A container given as written, a child as written for its place, both with nothing behind them. */
  predicate Given(t: Node, bt: ContainerType, kid: Node, st: ContainerType) {
    && t.Container? && Basic(bt) && Basic(st) && Basic(t.ctype) && Writable(t, bt) && Writable(kid, st)
  }

  /** Into a bank, a child of the right type is appended correctly exactly if the lengths add up to 32
      bits and, for segments and tagsegments, the child is as long as the low half of the
      container's length word says. */
  lemma {:induction false} AppendToBank(t: Node, kid: Node, st: ContainerType)
    requires Given(t, Bank, kid, st) && Writable(Longer(t, kid), Bank) && t.ctype == st
    ensures Appended(Ser(t, Bank), Bank, Ser(kid, st), st) == Ok(Ser(Longer(t, kid), Bank))
            <==> st == Bank || Len(kid, st) - 1 == (Len(t, Bank) - 1) % 0x1_0000
  {
    hide Ser, Len, Writable, Header, Appended, BufferLength, ContentCode;
    SerHeader(t, Bank);
    BankSer(t, kid, st);
    var w, k := Ser(t, Bank), Ser(kid, st);
    var n := StructureLength(w, k, st);
    if st == Bank {
      BankHeaders(kid);
    }
    AppendWords(w, k, st);
    if n == |k| {
      assert k[..n] == k;
    } else if n < |k| {
      assert |(w + k[..n])[0 := |w| + n - 1]| != |w| + |k|;
    }
  }

  lemma AppendWords(w: seq<u32>, k: seq<u32>, st: ContainerType)
    requires Basic(st) && 2 <= |w| && st.HeaderLen() <= |k| && |w| + |k| <= MAX_WORDS
    requires ContentCode(w, Bank) == st.Code() && BufferLength(w, Bank) == |w| && w[0] == |w| - 1
    ensures var n := StructureLength(w, k, st);
            if n > |k| || n == 0 then n > 0 ==> Appended(w, Bank, k, st).Err?
            else Appended(w, Bank, k, st) == Ok((w + k[..n])[0 := |w| + n - 1])
  {
    assert w[..|w|] == w;
  }

  lemma BankHeaders(kid: Node)
    requires Writable(kid, Bank)
    ensures Ser(kid, Bank)[0] == Len(kid, Bank) - 1
  {
  }

  lemma BankSer(t: Node, kid: Node, st: ContainerType)
    requires Given(t, Bank, kid, st) && Writable(Longer(t, kid), Bank) && t.ctype == st
    ensures Len(Longer(t, kid), Bank) == Len(t, Bank) + Len(kid, st) <= MAX_WORDS
    ensures Ser(Longer(t, kid), Bank) == (Ser(t, Bank) + Ser(kid, st))[0 := Len(t, Bank) + Len(kid, st) - 1]
  {
    hide SerKids, WritableKids, LenKids, Ser, Len, Writable, Header;
    SerTop(t);
    SerTop(Longer(t, kid));
    SerKidsAppend(t.kids, kid, st);
    var len, len' := Len(t, Bank), Len(Longer(t, kid), Bank);
    var h, s, k := Header(Bank, t.tag, t.num, st.Code(), len, 0), SerKids(t.kids, st), Ser(kid, st);
    LongerHeader(t.tag, t.num, st, len, len');
    NewFirst(h, s, k, len' - 1);
    assert Ser(t, Bank) == h + s;
    assert Longer(t, kid).kids == t.kids + [kid] && len' == len + Len(kid, st);
    assert Ser(Longer(t, kid), Bank) == h[0 := len' - 1] + (s + k);
  }

  lemma LongerHeader(tag: u16, num: u8, st: ContainerType, len: nat, len': nat)
    requires 1 <= len <= len' <= MAX_WORDS && st.IsContainer()
    ensures Header(Bank, tag, num, st.Code(), len', 0) == Header(Bank, tag, num, st.Code(), len, 0)[0 := len' - 1]
  {
  }

  lemma NewFirst(h: seq<u32>, s: seq<u32>, k: seq<u32>, x: u32)
    requires h != []
    ensures (h + s + k)[0 := x] == h[0 := x] + (s + k)
  {
  }

  lemma SerTop(t: Node)
    requires t.Container? && Writable(t, Bank)
    ensures WritableKids(t.kids, t.ctype) && t.ctype.IsContainer()
            && Len(t, Bank) == 2 + LenKids(t.kids, t.ctype) <= MAX_WORDS
    ensures Ser(t, Bank) == Header(Bank, t.tag, t.num, t.ctype.Code(), Len(t, Bank), 0) + SerKids(t.kids, t.ctype)
  {
    hide SerKids, LenKids, WritableKids;
  }

  /** Into a segment or tagsegment nothing is ever appended correctly. */
  lemma AppendToOthers(t: Node, bt: ContainerType, kid: Node, st: ContainerType)
    requires Given(t, bt, kid, st) && bt != Bank && Writable(Longer(t, kid), bt) && t.ctype == st
    ensures Appended(Ser(t, bt), bt, Ser(kid, st), st) != Ok(Ser(Longer(t, kid), bt))
  {
    hide Ser, Len, Writable, Header;
    SerHeader(t, bt);
    LongerLen(t, bt, kid);
  }

  lemma LongerLen(t: Node, bt: ContainerType, kid: Node)
    requires t.Container? && Writable(t, bt) && Writable(kid, t.ctype) && Writable(Longer(t, kid), bt)
    ensures Len(Longer(t, kid), bt) == Len(t, bt) + Len(kid, t.ctype)
  {
    SerKidsAppend(t.kids, kid, t.ctype);
  }

  // ----- appending commutes with parsing -----

  /** A bank begins at `w`, and as many words are there as its length word says. */
  predicate Complete(w: seq<u32>) { 1 <= |w| && 1 <= w[0] < |w| }

  function Own(w: seq<u32>): (o: seq<u32>)
    requires Complete(w)
    ensures |o| == w[0] as int + 1 && o[0] == w[0] && o[1] == w[1]
  {
    w[..w[0] + 1]
  }

  /** A bank appended to a bank of banks, whoever wrote them: as long as the combined length fits 32
      bits, the result has a consistent length word and parses to the old children followed by the
      new one, whatever stands behind it. */
  lemma AppendParses(w: seq<u32>, k: seq<u32>, post: seq<u32>)
    requires Complete(w) && Complete(k) && |Own(w)| + |Own(k)| <= 0xffff_ffff
    requires Parse.Parse(Own(w)).Ok? && Parse.Parse(Own(k)).Ok?
    requires Parse.Parse(Own(w)).value.Container? && Parse.Parse(Own(w)).value.ctype == Bank
    ensures var r := Appended(w, Bank, k, Bank);
            && r.Ok? && |r.value| == r.value[0] as int + 1
            && Parse.Parse(r.value + post) == Ok(Longer(Parse.Parse(Own(w)).value, Parse.Parse(Own(k)).value))
  {
    hide Parse.ParseKids;
    var t, kid := Parse.Parse(Own(w)).value, Parse.Parse(Own(k)).value;
    var joined := Own(w) + Own(k);
    var r := joined[0 := w[0] + k[0] + 1];
    assert Parse.ContainerOf(w[1] / 0x100 % 0x40) == Some(Bank);
    AppendedWords(w, k);
    hide Appended;
    Around.KidsThenOne(Own(w), Own(k), 2, Bank);
    SameKids(joined, r);
    HeadTells(r, t.kids + [kid]);
    assert [] + r + post == r + post;
    Around.ParseAround([], r, post, 0, Bank);
  }

  /** What is refused: a container whose content type is not that of the child, and lengths that do not fit
      32 bits together. */
  lemma AppendRefused(w: seq<u32>, k: seq<u32>)
    requires Complete(w) && Complete(k) && w[0] < 0xffff_ffff && k[0] < 0xffff_ffff
    ensures Appended(w, Bank, k, Bank) == Err(TypesDiffer) <==> w[1] / 256 % 64 != 0xe
    ensures Appended(w, Bank, k, Bank) == Err(TooLong) <==>
            w[1] / 256 % 64 == 0xe && w[0] as int + 1 + k[0] as int + 1 > 4294967295
  {
  }

  lemma AppendedWords(w: seq<u32>, k: seq<u32>)
    requires Complete(w) && Complete(k) && |Own(w)| + |Own(k)| <= 0xffff_ffff && w[1] / 0x100 % 0x40 == 0xe
    ensures Appended(w, Bank, k, Bank) == Ok((Own(w) + Own(k))[0 := w[0] + k[0] + 1])
  {
  }

  /** The children of a bank do not depend on its header. */
  lemma SameKids(w: seq<u32>, w': seq<u32>)
    requires |w| == |w'| >= 2 && w[2..] == w'[2..]
    ensures Parse.ParseKids(w, 2, |w|, Bank) == Parse.ParseKids(w', 2, |w|, Bank)
  {
    hide Parse.ParseKids;
    var body := w[2..];
    assert w[..2] + body + [] == w && w'[..2] + body + [] == w';
    Around.KidsAround(w[..2], body, [], 0, |body|, Bank);
    Around.KidsAround(w'[..2], body, [], 0, |body|, Bank);
  }

  lemma HeadTells(w: seq<u32>, kids: seq<Node>)
    requires |w| >= 2 && |w| == w[0] as int + 1 && w[1] / 0x100 % 0x40 == 0xe
    requires Parse.ParseKids(w, 2, |w|, Bank) == Ok(kids)
    ensures Parse.Parse(w) == Ok(Container(w[1] / 0x1_0000, w[1] % 0x100, Bank, kids))
  {
    hide Parse.ParseKids;
  }

  /** Of what the tree writer made, the appended bank comes back if and only if both inputs would. */
  lemma {:induction false} WrittenAppendParses(t: Node, kid: Node, post: seq<u32>)
    requires Given(t, Bank, kid, Bank) && t.ctype == Bank && Writable(Longer(t, kid), Bank)
    ensures var r := Appended(Ser(t, Bank), Bank, Ser(kid, Bank), Bank);
            r.Ok? && (Parse.Parse(r.value + post) == Ok(Longer(t, kid)) <==> Faithful(t, Bank) && Faithful(kid, Bank))
  {
    hide Ser, Len, Writable, Header, Appended;
    AppendToBank(t, kid, Bank);
    RoundTrip.RoundTrip(Longer(t, kid), post);
    FaithfulAppend(t.kids, kid, Bank);
  }

  lemma {:induction false} FaithfulAppend(kids: seq<Node>, kid: Node, ct: ContainerType)
    ensures FaithfulKids(kids + [kid], ct) <==> FaithfulKids(kids, ct) && Faithful(kid, ct)
  {
    if kids == [] {
      assert [kid][1..] == [];
    } else {
      assert (kids + [kid])[1..] == kids[1..] + [kid];
      FaithfulAppend(kids[1..], kid, ct);
    }
  }
}

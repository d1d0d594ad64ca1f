/** A bank is parsed the same wherever it stands: words before it and behind it do not matter. */
module EvioAround {
  import opened Words
  import opened EvioTree
  import opened EvioParse

  lemma {:induction false} CStrAround(b: seq<u8>, more: seq<u8>)
    requires CStrLen(b) < |b|
    ensures CStrLen(b + more) == CStrLen(b)
    decreases |b|
  {
    if b[0] != 0 {
      assert (b + more)[1..] == b[1..] + more;
      CStrAround(b[1..], more);
    }
  }

  lemma {:induction false} StringsAround(b: seq<u8>, more: seq<u8>, limit: int)
    requires limit <= |b| && ReadStrings(b, limit).Ok?
    ensures ReadStrings(b + more, limit) == ReadStrings(b, limit)
    decreases |b|
  {
    hide CStrLen;
    if limit > 0 && b[0] != EOT {
      var k := CStrLen(b);
      CStrAround(b, more);
      assert (b + more)[k + 1..] == b[k + 1..] + more;
      assert (b + more)[..k] == b[..k];
      StringsAround(b[k + 1..], more, limit - (k + 1));
    }
  }

  lemma BytesAround(a: seq<u32>, w: seq<u32>, c: seq<u32>, lo: nat, n: nat)
    requires lo + n <= 4 * |w|
    ensures Bytes(a + w + c, 4 * |a| + lo, n) == Bytes(w, lo, n)
  {
    forall i | 0 <= i < n
      ensures Bytes(a + w + c, 4 * |a| + lo, n)[i] == Bytes(w, lo, n)[i]
    {
      ByteAround(a, w, c, lo + i);
    }
  }

  lemma ByteAround(a: seq<u32>, w: seq<u32>, c: seq<u32>, i: nat)
    requires i < 4 * |w|
    ensures ByteAt(a + w + c, 4 * |a| + i) == ByteAt(w, i)
  {
    assert (4 * |a| + i) / 4 == |a| + i / 4 && (4 * |a| + i) % 4 == i % 4;
  }

  lemma HalvesAround(a: seq<u32>, w: seq<u32>, c: seq<u32>, lo: nat, n: nat)
    requires 2 * lo + n <= 2 * |w|
    ensures Halves(a + w + c, |a| + lo, n) == Halves(w, lo, n)
  {
    forall i | 0 <= i < n
      ensures Halves(a + w + c, |a| + lo, n)[i] == Halves(w, lo, n)[i]
    {
      assert HalfAt(a + w + c, 2 * (|a| + lo) + i) == Halves(a + w + c, |a| + lo, n)[i];
      assert (2 * (|a| + lo) + i) / 2 == |a| + (2 * lo + i) / 2 && (2 * (|a| + lo) + i) % 2 == (2 * lo + i) % 2;
    }
  }

  lemma QuadsAround(a: seq<u32>, w: seq<u32>, c: seq<u32>, lo: nat, n: nat)
    requires lo + 2 * n <= |w|
    ensures Quads(a + w + c, |a| + lo, n) == Quads(w, lo, n)
  {
  }

  /** Everything from a place to the end, as bytes, with what follows `w`. */
  lemma TailAround(a: seq<u32>, w: seq<u32>, c: seq<u32>, lo: nat)
    requires lo <= |w|
    ensures Bytes(a + w + c, 4 * (|a| + lo), 4 * (|w| - lo + |c|)) == Bytes(w, 4 * lo, 4 * (|w| - lo))
            + Bytes(c, 0, 4 * |c|)
  {
    var whole := a + w + c;
    var b, d := Bytes(w, 4 * lo, 4 * (|w| - lo)), Bytes(c, 0, 4 * |c|);
    forall i | 0 <= i < 4 * (|w| - lo + |c|)
      ensures ByteAt(whole, 4 * (|a| + lo) + i) == (b + d)[i]
    {
      if i < |b| {
        ByteAround(a, w, c, 4 * lo + i);
      } else {
        ByteAround(a + w, c, [], i - |b|);
        assert a + w + c + [] == whole;
      }
    }
  }

  lemma CompositeAround(a: seq<u32>, w: seq<u32>, c: seq<u32>, base: nat)
    requires base <= |w| && (c == [] || ReadComposite(w, base).Ok?)
    ensures ReadComposite(a + w + c, |a| + base) == ReadComposite(w, base)
  {
    hide Bytes, CStrLen;
    if base < |w| {
      TailAround(a, w, c, base + 1);
      var b, more := Bytes(w, 4 * (base + 1), 4 * (|w| - base - 1)), Bytes(c, 0, 4 * |c|);
      if c == [] {
        assert b + more == b;
      } else {
        CStrAround(b, more);
        assert (b + more)[..CStrLen(b)] == b[..CStrLen(b)];
      }
      var formatLen := w[base] % 0x1_0000;
      if base + 2 + formatLen < |w| && w[base + 1 + formatLen] > 0 {
        var n := w[base + 1 + formatLen] - 1;
        if base + 3 + formatLen + n <= |w| {
          assert (a + w + c)[|a| + base + 3 + formatLen..][..n] == w[base + 3 + formatLen..][..n];
        }
      }
    }
  }

  lemma TextAround(a: seq<u32>, w: seq<u32>, c: seq<u32>, base: nat, limit: int)
    requires base <= |w| && limit <= 4 * (|w| - base)
    requires c == [] || ReadStrings(Bytes(w, 4 * base, 4 * (|w| - base)), limit).Ok?
    ensures ReadStrings(Bytes(a + w + c, 4 * (|a| + base), 4 * (|w| - base + |c|)), limit)
            == ReadStrings(Bytes(w, 4 * base, 4 * (|w| - base)), limit)
  {
    hide Bytes, ReadStrings;
    var b, more := Bytes(w, 4 * base, 4 * (|w| - base)), Bytes(c, 0, 4 * |c|);
    TailAround(a, w, c, base);
    if c == [] {
      assert b + more == b;
    } else {
      StringsAround(b, more, limit);
    }
  }

  lemma LeafAround(a: seq<u32>, w: seq<u32>, c: seq<u32>, base: nat, n: nat, code: u8, padding: nat)
    requires base + n <= |w| && (c == [] || ReadLeaf(w, base, n, code, padding).Ok?)
    ensures ReadLeaf(a + w + c, |a| + base, n, code, padding) == ReadLeaf(w, base, n, code, padding)
  {
    hide Bytes, Halves, Quads, ReadStrings, ReadComposite;
    if code == 0x3 {
      TextAround(a, w, c, base, 4 * n - padding);
    } else if code == 0xf {
      CompositeAround(a, w, c, base);
    } else if code == 0x4 || code == 0x5 {
      if 2 * n - padding / 2 >= 0 {
        HalvesAround(a, w, c, base, 2 * n - padding / 2);
      }
    } else if code == 0x6 || code == 0x7 {
      if 4 * n - padding >= 0 {
        BytesAround(a, w, c, 4 * base, 4 * n - padding);
      }
    } else if 0x8 <= code <= 0xa {
      QuadsAround(a, w, c, base, n / 2);
    } else {
      assert (a + w + c)[|a| + base..][..n] == w[base..][..n];
    }
  }

  /** What parses, parses the same with any words before and behind it; with words only before it,
      also the fault is the same. */
  lemma {:induction false} ParseAround(a: seq<u32>, w: seq<u32>, c: seq<u32>, off: nat, bt: ContainerType)
    requires off <= |w| && (c == [] || ParseAt(w, off, bt).Ok?)
    ensures ParseAt(a + w + c, |a| + off, bt) == ParseAt(w, off, bt)
    decreases |w| - off, 0
  {
    hide ReadLeaf, ContainerOf, HeadAt, ParseKids;
    var r := HeadAt(w, off, bt);
    HeadAround(a, w, c, off, bt);
    if r.Ok? && off + r.value.len <= |w| {
      var h := r.value;
      var base := off + bt.HeaderLen();
      match ContainerOf(h.code)
      case Some(ct) => KidsAround(a, w, c, base, off + h.len, ct);
      case None =>
        if h.len >= bt.HeaderLen() {
          LeafAround(a, w, c, base, h.len - bt.HeaderLen(), h.code, h.padding);
        }
    }
  }

  lemma HeadAround(a: seq<u32>, w: seq<u32>, c: seq<u32>, off: nat, bt: ContainerType)
    requires off <= |w| && (c == [] || HeadAt(w, off, bt).Ok?)
    ensures HeadAt(a + w + c, |a| + off, bt) == HeadAt(w, off, bt)
  {
  }

  lemma {:induction false} KidsAround(a: seq<u32>, w: seq<u32>, c: seq<u32>, p: nat, end: nat, ct: ContainerType)
    requires p <= |w| && end <= |w| && (c == [] || ParseKids(w, p, end, ct).Ok?)
    ensures ParseKids(a + w + c, |a| + p, |a| + end, ct) == ParseKids(w, p, end, ct)
    decreases |w| - p, 1
  {
    hide ParseAt, HeadAt;
    if p < end {
      ParseAround(a, w, c, p, ct);
      if ParseAt(w, p, ct).Ok? {
        HeadAround(a, w, c, p, ct);
        KidsAround(a, w, c, p + HeadAt(w, p, ct).value.len, end, ct);
      }
    }
  }

  /** One bank behind the last makes the list of children one longer. */
  lemma {:induction false} KidsThenOne(w: seq<u32>, k: seq<u32>, p: nat, ct: ContainerType)
    requires p <= |w| && ParseKids(w, p, |w|, ct).Ok?
    requires ParseAt(k, 0, ct).Ok? && HeadAt(k, 0, ct).value.len == |k|
    ensures ParseKids(w + k, p, |w| + |k|, ct) == Ok(ParseKids(w, p, |w|, ct).value + [ParseAt(k, 0, ct).value])
    decreases |w| - p
  {
    hide ParseAt, HeadAt;
    if p < |w| {
      assert [] + w + k == w + k;
      ParseAround([], w, k, p, ct);
      HeadAround([], w, k, p, ct);
      var next := p + HeadAt(w, p, ct).value.len;
      KidsThenOne(w, k, next, ct);
      var first, rest := ParseAt(w, p, ct).value, ParseKids(w, next, |w|, ct).value;
      var kid := ParseAt(k, 0, ct).value;
      assert [first] + (rest + [kid]) == [first] + rest + [kid];
    } else {
      assert w + k + [] == w + k;
      ParseAround(w, k, [], 0, ct);
      HeadAround(w, k, [], 0, ct);
      var kid := ParseAt(k, 0, ct).value;
      assert ParseAt(w + k, |w|, ct) == Ok(kid) && HeadAt(w + k, |w|, ct).value.len == |k|;
      assert ParseKids(w + k, |w| + |k|, |w| + |k|, ct) == Ok([]);
      assert ParseKids(w + k, |w|, |w| + |k|, ct) == Ok([kid] + []);
      assert [kid] + [] == [] + [kid];
    }
  }
}

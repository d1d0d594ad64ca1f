/** Threshold crossings of an FADC waveform and the windows around them. */
module Pulses {
  import opened Words

  const N_PEDESTAL: nat := 4

  /** C's division truncates toward zero. */
  function Quarter(n: int): int { if n >= 0 then n / 4 else -(-n / 4) }

  // ----- crossings -----

  /** The waveform rises strictly through the level from `i - 1` to `i`. */
  predicate Up(s: seq<u16>, level: real, i: nat) {
    1 <= i < |s| && s[i] as real > level && (s[i - 1] as real) < level
  }

  /** The crossings the search adds from index `i` on to the `have` it has; None if it never ends:
      a dead time of no samples leaves it where it is, and without a limit nothing stops it. */
  function Search(s: seq<u16>, level: real, dead: nat, i: nat, have: nat, npeak: int): Option<seq<nat>>
    decreases |s| - i, Max(npeak - have, 0)
  {
    if i >= |s| then Some([])
    else if !Up(s, level, i) then Search(s, level, dead, i + 1, have, npeak)
    else if npeak > 0 && have + 1 >= npeak then Some([i])
    else if dead == 0 && npeak <= 0 then None
    else
      match Search(s, level, dead, i + dead, have + 1, npeak)
      case None => None
      case Some(rest) => Some([i] + rest)
  }

  method FindCrossings(s: seq<u16>, level: real, nsa: nat, npeak: int) returns (found: Option<seq<nat>>)
    requires |s| >= 1
    ensures var first := if s[0] as real > level then [0] else [];
            found == match Search(s, level, nsa / 4, 1, |first|, npeak)
                     case None => None
                     case Some(cs) => Some(first + cs)
    ensures found.Some? ==> forall c <- found.value ::
      c < |s| && s[c] as real > level && (c >= 1 ==> (s[c - 1] as real) < level)
  {
    var crossings: seq<nat> := if s[0] as real > level then [0] else [];
    ghost var first := crossings;
    var i: nat := 1;
    OnwardMore([], 0, Search(s, level, nsa / 4, 1, |first|, npeak));
    SearchFinds(s, level, nsa / 4, 1, |first|, npeak);
    assert crossings[|first|..] == [];
    while i < |s|
      invariant 1 <= i && |first| <= |crossings| && crossings[..|first|] == first
      invariant Search(s, level, nsa / 4, 1, |first|, npeak)
              == Onward(crossings[|first|..], Search(s, level, nsa / 4, i, |crossings|, npeak))
      decreases |s| - i, Max(npeak - |crossings|, 0)
    {
      if s[i] as real > level && (s[i - 1] as real) < level {
        ghost var more := Search(s, level, nsa / 4, i + nsa / 4, |crossings| + 1, npeak);
        OnwardMore(crossings[|first|..], i, more);
        assert (crossings + [i])[|first|..] == crossings[|first|..] + [i];
        crossings := crossings + [i];
        if npeak > 0 && |crossings| >= npeak {
          assert crossings == first + crossings[|first|..];
          return Some(crossings);
        }
        if nsa / 4 == 0 && npeak <= 0 {
          // From here the source goes round for ever.
          return None;
        }
        i := i + nsa / 4;
      } else {
        i := i + 1;
      }
    }
    OnwardMore(crossings[|first|..], 0, None);
    assert crossings == first + crossings[|first|..];
    found := Some(crossings);
  }

  function Onward(cs: seq<nat>, more: Option<seq<nat>>): Option<seq<nat>> {
    match more case None => None case Some(rest) => Some(cs + rest)
  }

  lemma OnwardMore(cs: seq<nat>, i: nat, more: Option<seq<nat>>)
    ensures Onward(cs, Onward([i], more)) == Onward(cs + [i], more)
    ensures Onward(cs, Some([i])) == Some(cs + [i])
    ensures Onward([], more) == more
    ensures Onward(cs, Some([])) == Some(cs)
  {
    if more.Some? {
      assert cs + ([i] + more.value) == cs + [i] + more.value;
      assert [] + more.value == more.value;
    }
    assert cs + [] == cs;
  }

  // ----- what the search finds -----

  /** `j` lies in the dead time of a recorded crossing; the crossing itself counts. */
  ghost predicate Near(cs: seq<nat>, dead: nat, j: nat)
  {
    exists k :: 0 <= k < |cs| && cs[k] <= j < cs[k] + Max(dead, 1)
  }

  ghost predicate Apart(cs: seq<nat>, dead: nat) { forall k :: 1 <= k < |cs| ==> cs[k] >= cs[k - 1] + dead }

  /** Recorded crossings are crossings, at least the dead time apart, and every crossing is recorded
      or lies in the dead time of a recorded one. */
  ghost predicate Right(s: seq<u16>, level: real, dead: nat, from: nat, cs: seq<nat>) {
    && (forall k :: 0 <= k < |cs| ==> from <= cs[k] && Up(s, level, cs[k]))
    && Apart(cs, dead)
    && (forall j: nat :: from <= j && Up(s, level, j) ==> Near(cs, dead, j))
  }

  lemma {:induction false} SearchRight(s: seq<u16>, level: real, dead: nat, i: nat, have: nat, npeak: int)
    requires dead >= 1 && npeak <= 0
    ensures Search(s, level, dead, i, have, npeak).Some?
    ensures Right(s, level, dead, i, Search(s, level, dead, i, have, npeak).value)
    decreases |s| - i
  {
    hide Right, Up;
    if i >= |s| {
      RightNone(s, level, dead, i);
    } else if Up(s, level, i) {
      SearchRight(s, level, dead, i + dead, have + 1, npeak);
      RightMore(s, level, dead, i, Search(s, level, dead, i + dead, have + 1, npeak).value);
    } else {
      SearchRight(s, level, dead, i + 1, have, npeak);
      RightSkip(s, level, dead, i, Search(s, level, dead, i + 1, have, npeak).value);
    }
  }

  lemma RightNone(s: seq<u16>, level: real, dead: nat, i: nat)
    requires i >= |s|
    ensures Right(s, level, dead, i, [])
  {
  }

  lemma RightSkip(s: seq<u16>, level: real, dead: nat, i: nat, cs: seq<nat>)
    requires !Up(s, level, i) && Right(s, level, dead, i + 1, cs)
    ensures Right(s, level, dead, i, cs)
  {
    hide Up, Near, Apart;
  }

  lemma RightMore(s: seq<u16>, level: real, dead: nat, i: nat, rest: seq<nat>)
    requires dead >= 1 && Up(s, level, i) && Right(s, level, dead, i + dead, rest)
    ensures Right(s, level, dead, i, [i] + rest)
  {
    hide Up, Near;
    forall j: nat | i <= j && Up(s, level, j) ensures Near([i] + rest, dead, j) {
      NearMore(i, rest, dead, j);
    }
  }

  lemma NearMore(i: nat, rest: seq<nat>, dead: nat, j: nat)
    requires dead >= 1 && i <= j && (i + dead <= j ==> Near(rest, dead, j))
    ensures Near([i] + rest, dead, j)
  {
    var cs := [i] + rest;
    if j < i + dead {
      assert cs[0] <= j < cs[0] + Max(dead, 1);
    } else {
      var k :| 0 <= k < |rest| && rest[k] <= j < rest[k] + Max(dead, 1);
      assert cs[k + 1] == rest[k];
    }
  }

  /** Whatever the limit, only upward crossings are recorded: the sample before lies below the level, the
      sample itself above. */
  lemma {:induction false} SearchFinds(s: seq<u16>, level: real, dead: nat, i: nat, have: nat, npeak: int)
    requires i >= 1
    ensures Search(s, level, dead, i, have, npeak).Some? ==> forall c <- Search(s, level, dead, i, have, npeak).value ::
      i <= c < |s| && (s[c - 1] as real) < level && s[c] as real > level
    decreases |s| - i, Max(npeak - have, 0)
  {
    if i < |s| {
      if !Up(s, level, i) {
        SearchFinds(s, level, dead, i + 1, have, npeak);
      } else if !(npeak > 0 && have + 1 >= npeak) && (dead > 0 || npeak > 0) {
        SearchFinds(s, level, dead, i + dead, have + 1, npeak);
      }
    }
  }

  /** Without a limit no upward crossing is passed over: each is recorded or comes within the dead time
      of a recorded one, and recorded ones are the dead time apart. */
  lemma SearchMissesNone(s: seq<u16>, level: real, dead: nat, i: nat, have: nat, npeak: int)
    requires i >= 1 && dead >= 1 && npeak <= 0
    ensures Search(s, level, dead, i, have, npeak).Some?
    ensures var cs := Search(s, level, dead, i, have, npeak).value;
      && (forall h, j :: i <= j < |s| && h == j - 1 && (s[h] as real) < level && s[j] as real > level ==>
            exists c :: c in cs && c <= j < c + dead)
      && (forall k :: 1 <= k < |cs| ==> cs[k - 1] + dead <= cs[k])
  {
    hide Search, Right, Apart;
    SearchRight(s, level, dead, i, have, npeak);
    var cs := Search(s, level, dead, i, have, npeak).value;
    forall h, j | i <= j < |s| && h == j - 1 && (s[h] as real) < level && s[j] as real > level
      ensures exists c :: c in cs && c <= j < c + dead
    {
      RightNear(s, level, dead, i, cs, j);
    }
    RightApart(s, level, dead, i, cs);
  }

  lemma RightNear(s: seq<u16>, level: real, dead: nat, i: nat, cs: seq<nat>, j: nat)
    requires dead >= 1 && Right(s, level, dead, i, cs) && i <= j && Up(s, level, j)
    ensures exists c :: c in cs && c <= j < c + dead
  {
    hide Up;
    assert Near(cs, dead, j);
    var k :| 0 <= k < |cs| && cs[k] <= j < cs[k] + Max(dead, 1);
    assert cs[k] in cs;
  }

  lemma RightApart(s: seq<u16>, level: real, dead: nat, i: nat, cs: seq<nat>)
    requires Right(s, level, dead, i, cs)
    ensures forall k :: 1 <= k < |cs| ==> cs[k - 1] + dead <= cs[k]
  {
    hide Up, Near;
  }

  /** There is only one such list. */
  lemma {:induction false} RightUnique(s: seq<u16>, level: real, dead: nat, i: nat, cs: seq<nat>, ds: seq<nat>)
    requires dead >= 1 && Right(s, level, dead, i, cs) && Right(s, level, dead, i, ds)
    ensures cs == ds
    decreases |cs|
  {
    hide Right, Up;
    RightEmpty(s, level, dead, i, cs);
    RightEmpty(s, level, dead, i, ds);
    if cs != [] && ds != [] {
      RightFirst(s, level, dead, i, cs);
      RightFirst(s, level, dead, i, ds);
      RightHead(s, level, dead, i, cs, ds[0]);
      RightHead(s, level, dead, i, ds, cs[0]);
      RightTail(s, level, dead, i, cs);
      RightTail(s, level, dead, i, ds);
      RightUnique(s, level, dead, cs[0] + dead, cs[1..], ds[1..]);
      assert cs == [cs[0]] + cs[1..] && ds == [ds[0]] + ds[1..];
    }
  }

  lemma RightFirst(s: seq<u16>, level: real, dead: nat, i: nat, cs: seq<nat>)
    requires Right(s, level, dead, i, cs) && cs != []
    ensures i <= cs[0] && Up(s, level, cs[0])
  {
  }

  lemma RightEmpty(s: seq<u16>, level: real, dead: nat, i: nat, cs: seq<nat>)
    requires Right(s, level, dead, i, cs)
    ensures cs == [] <==> forall j: nat :: i <= j ==> !Up(s, level, j)
  {
    hide Up;
    if cs != [] {
      assert i <= cs[0] && Up(s, level, cs[0]);
    }
  }

  /** The first recorded crossing comes first of all. */
  lemma RightHead(s: seq<u16>, level: real, dead: nat, i: nat, cs: seq<nat>, j: nat)
    requires dead >= 1 && Right(s, level, dead, i, cs) && cs != [] && i <= j && Up(s, level, j)
    ensures cs[0] <= j
  {
    hide Up;
    assert i <= j && Near(cs, dead, j);
    var k :| 0 <= k < |cs| && cs[k] <= j < cs[k] + Max(dead, 1);
    ApartGrows(cs, dead, 0, k);
  }

  lemma {:induction false} ApartGrows(cs: seq<nat>, dead: nat, i: nat, k: nat)
    requires Apart(cs, dead) && i <= k < |cs|
    ensures cs[i] + (if i < k then dead else 0) <= cs[k]
    decreases k
  {
    if i < k {
      ApartGrows(cs, dead, i, k - 1);
      assert cs[k] >= cs[k - 1] + dead;
    }
  }

  lemma RightTail(s: seq<u16>, level: real, dead: nat, i: nat, cs: seq<nat>)
    requires dead >= 1 && Right(s, level, dead, i, cs) && cs != []
    ensures Right(s, level, dead, cs[0] + dead, cs[1..])
  {
    hide Up, Near;
    var tail, from := cs[1..], cs[0] + dead;
    forall k | 0 <= k < |tail| ensures from <= tail[k] && Up(s, level, tail[k]) {
      ApartGrows(cs, dead, 0, k + 1);
      assert tail[k] == cs[k + 1];
    }
    assert Apart(tail, dead) by {
      assert forall k :: 1 <= k < |tail| ==> tail[k] == cs[k + 1] && tail[k - 1] == cs[k];
    }
    forall j: nat | from <= j && Up(s, level, j) ensures Near(tail, dead, j) {
      NearLess(cs, dead, j);
    }
  }

  lemma NearLess(cs: seq<nat>, dead: nat, j: nat)
    requires dead >= 1 && cs != [] && Near(cs, dead, j) && cs[0] + dead <= j
    ensures Near(cs[1..], dead, j)
  {
    var k :| 0 <= k < |cs| && cs[k] <= j < cs[k] + Max(dead, 1);
    assert cs[1..][k - 1] == cs[k];
  }

  /** With a limit the search stops early, but not before it has a crossing of its own: it finds the
      first ones only. */
  lemma {:induction false} LimitedPrefix(s: seq<u16>, level: real, dead: nat, i: nat, have: nat, npeak: int)
    requires dead >= 1 && npeak > 0
    ensures Search(s, level, dead, i, have, npeak).Some? && Search(s, level, dead, i, have, 0).Some?
    ensures var all, cs := Search(s, level, dead, i, have, 0).value, Search(s, level, dead, i, have, npeak).value;
            cs == if |all| <= Max(npeak - have, 1) then all else all[..Max(npeak - have, 1)]
    decreases |s| - i
  {
    hide Up;
    if i < |s| && Up(s, level, i) {
      SearchSome(s, level, dead, i + dead, have + 1);
      if have + 1 < npeak {
        LimitedPrefix(s, level, dead, i + dead, have + 1, npeak);
      }
    } else if i < |s| {
      LimitedPrefix(s, level, dead, i + 1, have, npeak);
    }
  }

  lemma {:induction false} SearchSome(s: seq<u16>, level: real, dead: nat, i: nat, have: nat)
    requires dead >= 1
    ensures Search(s, level, dead, i, have, 0).Some?
    decreases |s| - i
  {
    hide Up;
    if i < |s| {
      var up := Up(s, level, i);
      SearchSome(s, level, dead, if up then i + dead else i + 1, if up then have + 1 else have);
    }
  }

  /** Without a limit, the search ends exactly if there is a dead time or nothing to find. */
  lemma {:induction false} EndsExactly(s: seq<u16>, level: real, dead: nat, i: nat, have: nat)
    ensures Search(s, level, dead, i, have, 0).Some? <==> dead >= 1 || forall j: nat :: i <= j ==> !Up(s, level, j)
    decreases |s| - i
  {
    hide Up;
    if dead >= 1 {
      SearchSome(s, level, dead, i, have);
    } else if i < |s| {
      EndsExactly(s, level, dead, i + 1, have);
    } else {
      RightNone(s, level, dead, i);
    }
  }

  // ----- windows -----

  /** A pulse: its integral above pedestal, where it crossed, and the first largest sample. */
  datatype Hit = Hit(integral: real, crossing: nat, pedestal: real, max: nat, maxLoc: int)

  datatype Outcome = Hits(hits: seq<Hit>) | Endless | Overrun

  function Total(s: seq<u16>, from: nat, to: nat): nat
    requires to <= |s|
  {
    if from >= to then 0 else Total(s, from, to - 1) + s[to - 1]
  }

  /** `Total` is the sum: of nothing 0, of one sample that sample, of adjoining ranges the sum of both. */
  lemma {:induction false} TotalIsSum(s: seq<u16>, a: nat, b: nat, c: nat)
    requires a <= b <= c <= |s|
    ensures Total(s, a, c) == Total(s, a, b) + Total(s, b, c)
    ensures b < c ==> Total(s, b, b + 1) == s[b]
    ensures Total(s, a, a) == 0
    decreases c
  {
    if b < c {
      TotalIsSum(s, a, b, c - 1);
      assert Total(s, b, b) == 0;
    }
  }

  function Start(cross: nat, nsb: int): nat { if cross - Quarter(nsb) >= 0 then cross - Quarter(nsb) else 0 }

  function Stop(s: seq<u16>, cross: nat, nsa: nat): nat { if cross + nsa / 4 < |s| then cross + nsa / 4 else |s| }

  /** `max` is the largest of the samples, and `at` the first index of it; none is looked for at 0. */
  ghost predicate Largest(s: seq<u16>, from: nat, to: nat, max: nat, at: int)
    requires to <= |s|
  {
    && (forall i :: from <= i < to ==> s[i] <= max)
    && if at < 0 then max == 0
       else from <= at < to && s[at] == max > 0 && forall i :: from <= i < at ==> s[i] < max
  }

  /** The hit is that of the samples from `NSB` before to `NSA` behind the crossing, as far as there are any. */
  ghost predicate HitOf(s: seq<u16>, cross: nat, pedestal: real, nsb: int, nsa: nat, h: Hit) {
    var start, stop := Start(cross, nsb), Stop(s, cross, nsa);
    && h.crossing == cross && h.pedestal == pedestal
    && h.integral == Total(s, start, stop) as real - (stop as real - start as real) * pedestal
    && Largest(s, start, stop, h.max, h.maxLoc)
  }

  /** The window in plain indices: `NSB / 4` samples before the crossing (behind it, if negative) and `NSA / 4`
      from it on, as far as there are any; the integral is what they hold above pedestal, `max` the first of
      the largest. */
  lemma HitWindow(s: seq<u16>, cross: nat, pedestal: real, nsb: int, nsa: nat, h: Hit, from: nat, end: nat)
    requires HitOf(s, cross, pedestal, nsb, nsa, h)
    requires from == if nsb < 0 then cross + -nsb / 4 else if cross >= nsb / 4 then cross - nsb / 4 else 0
    requires end == if cross + nsa / 4 < |s| then cross + nsa / 4 else |s|
    ensures h.crossing == cross && h.pedestal == pedestal
    ensures h.integral == Total(s, from, end) as real - (end - from) as real * pedestal
    ensures forall i :: from <= i < end ==> s[i] <= h.max
    ensures h.maxLoc < 0 ==> h.max == 0
    ensures h.maxLoc >= 0 ==>
      from <= h.maxLoc < end && s[h.maxLoc] == h.max > 0 && forall i :: from <= i < h.maxLoc ==> s[i] < h.max
  {
  }

  lemma LargestMore(s: seq<u16>, from: nat, i: nat, max: nat, at: int)
    requires from <= i < |s| && Largest(s, from, i, max, at)
    ensures if max < s[i] then Largest(s, from, i + 1, s[i], i) else Largest(s, from, i + 1, max, at)
  {
  }

  lemma HitTold(s: seq<u16>, cross: nat, pedestal: real, nsb: int, nsa: nat, h: Hit)
    requires HitOf(s, cross, pedestal, nsb, nsa, h)
    ensures h.crossing == cross && h.pedestal == pedestal
  {
  }

  method Scan(s: seq<u16>, start: nat, stop: nat) returns (adc: nat, max: nat, maxLoc: int)
    requires stop <= |s|
    ensures adc == Total(s, start, stop) && Largest(s, start, stop, max, maxLoc)
  {
    adc, max, maxLoc := 0, 0, -1;
    if start >= stop {
      return;
    }
    for i := start to stop
      invariant adc == Total(s, start, i) && Largest(s, start, i, max, maxLoc)
    {
      LargestMore(s, start, i, max, maxLoc);
      adc := adc + s[i] as nat;
      if max < s[i] {
        max, maxLoc := s[i], i;
      }
    }
  }

  method Integrate(s: seq<u16>, cross: nat, pedestal: real, nsb: int, nsa: nat) returns (h: Hit)
    ensures HitOf(s, cross, pedestal, nsb, nsa, h)
  {
    hide Largest, Total;
    var start, stop := Start(cross, nsb), Stop(s, cross, nsa);
    var adc, max, maxLoc := Scan(s, start, stop);
    h := Hit(adc as real - (stop as real - start as real) * pedestal, cross, pedestal, max, maxLoc);
  }

  /** The pedestal given, or if there is none the mean of the first samples. */
  function Pedestal(s: seq<u16>, pedestal: real): real
    requires pedestal <= 0.0 ==> N_PEDESTAL <= |s|
  {
    if pedestal <= 0.0 then Total(s, 0, N_PEDESTAL) as real / N_PEDESTAL as real else pedestal
  }

  lemma PedestalIs(s: seq<u16>, pedestal: real)
    requires pedestal <= 0.0 ==> 4 <= |s|
    ensures Pedestal(s, pedestal) == if pedestal > 0.0 then pedestal
                                     else (s[0] as int + s[1] as int + s[2] as int + s[3] as int) as real / 4.0
  {
    if pedestal <= 0.0 {
      TotalIsSum(s, 0, 3, 4);
      TotalIsSum(s, 0, 2, 3);
      TotalIsSum(s, 0, 1, 2);
      TotalIsSum(s, 0, 0, 1);
    }
  }

  /** What was recorded, told by the hits. */
  lemma HitsTell(s: seq<u16>, level: real, nsa: nat, npeak: int, first: seq<nat>, cs: seq<nat>, hits: seq<Hit>)
    requires s != [] && nsa >= 4 && npeak <= 0 && first == if s[0] as real > level then [0] else []
    requires Search(s, level, nsa / 4, 1, |first|, npeak) == Some(cs)
    requires |hits| == |first + cs| && forall k :: 0 <= k < |hits| ==> hits[k].crossing == (first + cs)[k]
    ensures s[0] as real > level ==> hits != [] && hits[0].crossing == 0
    ensures forall i, j :: 0 <= i < j < |s| && j == i + 1 && (s[i] as real) < level && s[j] as real > level ==>
      exists h :: h in hits && 1 <= h.crossing <= j < h.crossing + nsa / 4
    ensures forall k :: 1 <= k < |hits| && hits[k - 1].crossing >= 1 ==>
      hits[k - 1].crossing + nsa / 4 <= hits[k].crossing
  {
    hide Search;
    SearchFinds(s, level, nsa / 4, 1, |first|, npeak);
    SearchMissesNone(s, level, nsa / 4, 1, |first|, npeak);
    forall i, j | 0 <= i < j < |s| && j == i + 1 && (s[i] as real) < level && s[j] as real > level
      ensures exists h :: h in hits && 1 <= h.crossing <= j < h.crossing + nsa / 4
    {
      var c :| c in cs && c <= j < c + nsa / 4;
      var k :| 0 <= k < |cs| && cs[k] == c;
      assert hits[|first| + k].crossing == c && hits[|first| + k] in hits;
    }
    forall k | 1 <= k < |hits| && hits[k - 1].crossing >= 1
      ensures hits[k - 1].crossing + nsa / 4 <= hits[k].crossing
    {
      assert cs[k - 1 - |first|] == hits[k - 1].crossing && cs[k - |first|] == hits[k].crossing;
    }
  }

  method ComputeMode7(s: seq<u16>, thres: real, pedestal: real, nsb: int, nsa: int, npeak: int) returns (r: Outcome)
    ensures nsa <= 0 ==> r == Hits([])
    ensures nsa > 0 ==> (r == Overrun <==> s == [] || (pedestal <= 0.0 && |s| < N_PEDESTAL))
    ensures nsa > 0 && s != [] && (pedestal <= 0.0 ==> N_PEDESTAL <= |s|) ==>
      var p := Pedestal(s, pedestal);
      var first := if s[0] as real > thres + p then [0] else [];
      match Search(s, thres + p, nsa / 4, 1, |first|, npeak)
      case None => r == Endless
      case Some(cs) =>
        && r.Hits? && |r.hits| == |first + cs|
        && forall k :: 0 <= k < |r.hits| ==> HitOf(s, (first + cs)[k], p, nsb, nsa, r.hits[k])
    // The pedestal, and the level that is crossed.
    ensures r.Hits? ==> forall h <- r.hits ::
      if pedestal > 0.0 then h.pedestal == pedestal
      else |s| >= 4 && h.pedestal == (s[0] as int + s[1] as int + s[2] as int + s[3] as int) as real / 4.0
    ensures r.Hits? ==> forall h <- r.hits ::
      && h.crossing < |s| && s[h.crossing] as real > thres + h.pedestal
      && (h.crossing >= 1 ==> (s[h.crossing - 1] as real) < thres + h.pedestal)
    // Without a limit, every crossing is recorded or lies within NSA/4 samples of a recorded one.
    ensures r.Hits? && nsa >= 4 && npeak <= 0 ==>
      var p := if pedestal > 0.0 then pedestal
               else (s[0] as int + s[1] as int + s[2] as int + s[3] as int) as real / 4.0;
      && (s[0] as real > thres + p ==> r.hits != [] && r.hits[0].crossing == 0)
      && (forall i, j :: 0 <= i < j < |s| && j == i + 1 && (s[i] as real) < thres + p && s[j] as real > thres + p ==>
            exists h :: h in r.hits && 1 <= h.crossing <= j < h.crossing + nsa / 4)
      && (forall k :: 1 <= k < |r.hits| && r.hits[k - 1].crossing >= 1 ==>
            r.hits[k - 1].crossing + nsa / 4 <= r.hits[k].crossing)
  {
    if nsa <= 0 {
      return Hits([]);
    }
    if s == [] || (pedestal <= 0.0 && |s| < N_PEDESTAL) {
      return Overrun;
    }
    var p := ChoosePedestal(s, pedestal);
    PedestalIs(s, pedestal);
    hide Search, HitOf, Pedestal, Total;
    var found := FindCrossings(s, thres + p, nsa, npeak);
    if found == None {
      return Endless;
    }
    var hits := Measure(s, found.value, p, nsb, nsa);
    r := Hits(hits);
    ghost var first: seq<nat> := if s[0] as real > thres + p then [0] else [];
    if nsa >= 4 && npeak <= 0 {
      HitsTell(s, thres + p, nsa, npeak, first, Search(s, thres + p, nsa / 4, 1, |first|, npeak).value, hits);
    }
    HitsCross(s, thres + p, found.value, hits);
  }

  /** The pedestal given or computed from the first samples. */
  method ChoosePedestal(s: seq<u16>, pedestal: real) returns (p: real)
    requires pedestal <= 0.0 ==> N_PEDESTAL <= |s|
    ensures p == Pedestal(s, pedestal)
  {
    p := pedestal;
    if pedestal <= 0.0 {
      var pedest: nat := 0;
      for i := 0 to N_PEDESTAL
        invariant pedest == Total(s, 0, i)
      {
        pedest := pedest + s[i] as nat;
      }
      p := pedest as real / N_PEDESTAL as real;
    }
  }

  /** One hit for each crossing. */
  method Measure(s: seq<u16>, crossings: seq<nat>, p: real, nsb: int, nsa: nat) returns (hits: seq<Hit>)
    ensures |hits| == |crossings|
    ensures forall k :: 0 <= k < |hits| ==> HitOf(s, crossings[k], p, nsb, nsa, hits[k])
    ensures forall k :: 0 <= k < |hits| ==> hits[k].crossing == crossings[k] && hits[k].pedestal == p
  {
    hide HitOf;
    hits := [];
    for k := 0 to |crossings|
      invariant |hits| == k && forall j :: 0 <= j < k ==> HitOf(s, crossings[j], p, nsb, nsa, hits[j])
      invariant forall j :: 0 <= j < k ==> hits[j].crossing == crossings[j] && hits[j].pedestal == p
    {
      var h := Integrate(s, crossings[k], p, nsb, nsa);
      HitTold(s, crossings[k], p, nsb, nsa, h);
      hits := hits + [h];
    }
  }

  lemma HitsCross(s: seq<u16>, level: real, cs: seq<nat>, hits: seq<Hit>)
    requires |hits| == |cs| && forall k :: 0 <= k < |hits| ==> hits[k].crossing == cs[k]
    requires forall c <- cs :: c < |s| && s[c] as real > level && (c >= 1 ==> (s[c - 1] as real) < level)
    ensures forall h <- hits ::
      h.crossing < |s| && s[h.crossing] as real > level && (h.crossing >= 1 ==> (s[h.crossing - 1] as real) < level)
  {
    forall h <- hits
      ensures h.crossing < |s| && s[h.crossing] as real > level
      ensures h.crossing >= 1 ==> (s[h.crossing - 1] as real) < level
    {
      var k :| 0 <= k < |hits| && hits[k] == h;
      assert cs[k] in cs;
    }
  }
}

/** The list of stations: a chain of stations, some of them heading a chain of parallel ones; counted with two
    nested loops, sent with one flat loop. */
module EtStations {
  import opened Words

  /** Links are indices, or negative at the end; `parallel` is the station's flow mode. */
  datatype Station = Station(next: int, nextParallel: int, parallel: bool)

  /** One station as sent: heads of parallel groups are marked for the monitor. */
  datatype Sent = Sent(station: nat, head: bool)

  // ----- well-formed lists -----

  /** A station alone, or a parallel one with those in parallel to it. */
  predicate GroupOk(st: seq<Station>, g: seq<nat>) {
    && g != [] && (forall i :: 0 <= i < |g| ==> g[i] < |st|)
    && if st[g[0]].parallel then
         && (forall i :: 0 <= i < |g| ==> st[g[i]].parallel)
         && (forall i :: 1 <= i < |g| ==> st[g[i - 1]].nextParallel == g[i])
         && st[g[|g| - 1]].nextParallel < 0
       else |g| == 1
  }

  /** The main chain leads from head to head, beginning with grandcentral, station 0. */
  predicate ListOk(st: seq<Station>, groups: seq<seq<nat>>) {
    && groups != [] && (forall k :: 0 <= k < |groups| ==> GroupOk(st, groups[k]))
    && groups[0][0] == 0
    && (forall k :: 1 <= k < |groups| ==> st[groups[k - 1][0]].next == groups[k][0])
    && st[groups[|groups| - 1][0]].next < 0
  }

  lemma GroupEnd(st: seq<Station>, g: seq<nat>, i: nat)
    requires GroupOk(st, g) && i < |g|
    ensures g[i] < |st| && (st[g[i]].parallel <==> st[g[0]].parallel)
    ensures st[g[i]].parallel && i + 1 < |g| ==> st[g[i]].nextParallel == g[i + 1]
    ensures st[g[i]].parallel && i + 1 == |g| ==> st[g[i]].nextParallel < 0
    ensures !st[g[i]].parallel ==> i == 0 && |g| == 1
  {
    assert i + 1 < |g| && st[g[0]].parallel ==> st[g[i + 1 - 1]].nextParallel == g[i + 1];
  }

  lemma ListEnd(st: seq<Station>, groups: seq<seq<nat>>, k: nat)
    requires ListOk(st, groups) && k < |groups|
    ensures GroupOk(st, groups[k]) && groups[k][0] < |st|
    ensures k + 1 < |groups| ==> st[groups[k][0]].next == groups[k + 1][0]
    ensures k + 1 == |groups| ==> st[groups[k][0]].next < 0
    ensures groups[..|groups|] == groups
  {
    assert k + 1 < |groups| ==> st[groups[k + 1 - 1][0]].next == groups[k + 1][0];
  }

  /** A group as it is to be sent. */
  function Marks(st: seq<Station>, g: seq<nat>): (out: seq<Sent>)
    requires GroupOk(st, g)
    ensures |out| == |g| && forall i :: 0 <= i < |g| ==> out[i] == Sent(g[i], i == 0 && st[g[0]].parallel)
  {
    seq(|g|, i requires 0 <= i < |g| => Sent(g[i], i == 0 && st[g[0]].parallel))
  }

  /** The main list with each parallel group in place. */
  function InPlace(st: seq<Station>, groups: seq<seq<nat>>): seq<Sent>
    requires forall k :: 0 <= k < |groups| ==> GroupOk(st, groups[k])
  {
    if groups == [] then [] else InPlace(st, groups[..|groups| - 1]) + Marks(st, groups[|groups| - 1])
  }

  lemma InPlaceMore(st: seq<Station>, groups: seq<seq<nat>>, k: nat)
    requires k < |groups| && forall j :: 0 <= j < |groups| ==> GroupOk(st, groups[j])
    ensures InPlace(st, groups[..k + 1]) == InPlace(st, groups[..k]) + Marks(st, groups[k])
  {
    assert groups[..k + 1][..k] == groups[..k];
  }

  lemma {:induction false} InPlacePrefix(st: seq<Station>, groups: seq<seq<nat>>, k: nat)
    requires k <= |groups| && forall j :: 0 <= j < |groups| ==> GroupOk(st, groups[j])
    ensures InPlace(st, groups[..k]) <= InPlace(st, groups)
    decreases |groups| - k
  {
    if k < |groups| {
      InPlacePrefix(st, groups, k + 1);
      InPlaceMore(st, groups, k);
    } else {
      assert groups[..k] == groups;
    }
  }

  lemma OneMark(st: seq<Station>, g: seq<nat>, i: nat)
    requires GroupOk(st, g) && i < |g|
    ensures Marks(st, g)[..i + 1] == Marks(st, g)[..i] + [Sent(g[i], i == 0 && st[g[i]].parallel)]
    ensures i + 1 == |g| ==> Marks(st, g)[..i + 1] == Marks(st, g)
  {
  }

  /** Station `i` of group `k` is sent behind all groups before, in its place, and marked as a head exactly if it
      is the first of a parallel group. */
  lemma {:induction false} SentAt(st: seq<Station>, groups: seq<seq<nat>>, k: nat, i: nat)
    requires k < |groups| && i < |groups[k]| && forall j :: 0 <= j < |groups| ==> GroupOk(st, groups[j])
    ensures var at := |InPlace(st, groups[..k])| + i;
            && at < |InPlace(st, groups)|
            && InPlace(st, groups)[at].station == groups[k][i]
            && (InPlace(st, groups)[at].head <==> i == 0 && st[groups[k][0]].parallel)
    ensures |InPlace(st, groups[..k + 1])| == |InPlace(st, groups[..k])| + |groups[k]|
  {
    hide GroupOk;
    InPlaceMore(st, groups, k);
    InPlacePrefix(st, groups, k + 1);
    var at := |InPlace(st, groups[..k])| + i;
    assert InPlace(st, groups[..k + 1])[at] == Marks(st, groups[k])[i];
  }

  // ----- the nested loops that count -----

  method CountStations(st: seq<Station>, ghost groups: seq<seq<nat>>) returns (count: nat)
    requires ListOk(st, groups)
    ensures count == |InPlace(st, groups)|
  {
    count := 0;
    var ps: nat := 0;
    ghost var k := 0;
    while true
      invariant k < |groups| && ps == groups[k][0] && count == |InPlace(st, groups[..k])|
      decreases |groups| - k
    {
      hide GroupOk;
      ListEnd(st, groups, k);
      GroupEnd(st, groups[k], 0);
      InPlaceMore(st, groups, k);
      count := count + 1;
      if st[ps].parallel {
        var pstat := ps;
        ghost var i := 0;
        while st[pstat].nextParallel > -1
          invariant i < |groups[k]| && pstat == groups[k][i] && pstat < |st| && st[pstat].parallel
          invariant count == |InPlace(st, groups[..k])| + i + 1
          decreases |groups[k]| - i
        {
          GroupEnd(st, groups[k], i);
          GroupEnd(st, groups[k], i + 1);
          pstat := st[pstat].nextParallel;
          count := count + 1;
          i := i + 1;
        }
        GroupEnd(st, groups[k], i);
      }
      if st[ps].next < 0 {
        break;
      }
      ps := st[ps].next;
      k := k + 1;
    }
  }

  // ----- the flat loop that sends -----

  /** Sent so far: the first `k` groups and the first `i` stations of the next. */
  ghost predicate Reached(st: seq<Station>, groups: seq<seq<nat>>, k: nat, i: nat, out: seq<Sent>) {
    && (forall j :: 0 <= j < |groups| ==> GroupOk(st, groups[j]))
    && k < |groups| && i < |groups[k]| && out == InPlace(st, groups[..k]) + Marks(st, groups[k])[..i]
  }

  lemma ReachedStart(st: seq<Station>, groups: seq<seq<nat>>)
    requires ListOk(st, groups)
    ensures Reached(st, groups, 0, 0, []) && groups[0][0] == 0
  {
    assert groups[..0] == [];
  }

  lemma ReachedNext(st: seq<Station>, groups: seq<seq<nat>>, k: nat, i: nat, out: seq<Sent>)
    requires ListOk(st, groups) && Reached(st, groups, k, i, out)
    ensures var g := groups[k]; var more := out + [Sent(g[i], st[g[i]].parallel && i == 0)];
            && |out| < |InPlace(st, groups)| && out == InPlace(st, groups)[..|out|]
            && (i + 1 < |g| ==> Reached(st, groups, k, i + 1, more))
            && (i + 1 == |g| && k + 1 < |groups| ==> Reached(st, groups, k + 1, 0, more))
            && (i + 1 == |g| && k + 1 == |groups| ==> more == InPlace(st, groups))
  {
    hide GroupOk, InPlace, Marks;
    var g := groups[k];
    var sent, rest := InPlace(st, groups[..k]), Marks(st, g)[i..];
    InPlaceMore(st, groups, k);
    InPlacePrefix(st, groups, k + 1);
    OneMark(st, g, i);
    assert groups[..|groups|] == groups;
    assert sent + Marks(st, g) == out + rest;
    if k + 1 < |groups| {
      GroupNonempty(st, groups[k + 1]);
      assert Marks(st, groups[k + 1])[..0] == [];
    }
  }

  /** Where the loop goes from station `i` of group `k`, by the links alone. */
  lemma Turn(st: seq<Station>, groups: seq<seq<nat>>, k: nat, i: nat, out: seq<Sent>, all: seq<Sent>)
    requires ListOk(st, groups) && Reached(st, groups, k, i, out) && all == InPlace(st, groups)
    ensures groups[k][i] < |st| && groups[k][0] < |st|
    ensures var g := groups[k]; var s := st[g[i]]; var more := out + [Sent(g[i], s.parallel && i == 0)];
            if s.parallel && s.nextParallel > -1 then
              i + 1 < |g| && s.nextParallel == g[i + 1] && Reached(st, groups, k, i + 1, more)
            else if st[g[0]].next < 0 then more == all
            else
              && k + 1 < |groups| && groups[k + 1] != [] && st[g[0]].next == groups[k + 1][0]
              && Reached(st, groups, k + 1, 0, more)
  {
    hide GroupOk, InPlace, Marks, Reached;
    ReachedIn(st, groups, k, i, out);
    ListEnd(st, groups, k);
    GroupEnd(st, groups[k], i);
    ReachedNext(st, groups, k, i, out);
    if k + 1 < |groups| {
      GroupNonempty(st, groups[k + 1]);
    }
  }

  lemma ReachedIn(st: seq<Station>, groups: seq<seq<nat>>, k: nat, i: nat, out: seq<Sent>)
    requires Reached(st, groups, k, i, out)
    ensures k < |groups| && i < |groups[k]|
  {
  }

  /** Sends no more stations than were counted, and puts right the count if there are fewer. */
  method SendStations(st: seq<Station>, count1: nat, ghost groups: seq<seq<nat>>) returns (out: seq<Sent>, header: nat)
    requires ListOk(st, groups)
    ensures var all := InPlace(st, groups);
            out == (if |all| <= count1 then all else all[..count1]) && header == |out|
  {
    header, out := count1, [];
    var count2, ps: nat, pstat: nat, parallelHead := 0, 0, 0, true;
    ghost var k, i := 0, 0;
    ReachedStart(st, groups);
    ghost var all := InPlace(st, groups);
    hide GroupOk, ListOk, InPlace, Marks, Reached;
    while true
      invariant k < |groups| && i < |groups[k]| && ps == groups[k][i] && pstat == groups[k][0]
      invariant parallelHead == (i == 0) && count2 == |out| <= count1
      invariant Reached(st, groups, k, i, out)
      decreases |groups| - k, |groups[k]| - i
    {
      count2 := count2 + 1;
      if count2 > count1 {
        ReachedNext(st, groups, k, i, out);
        break;
      }
      Turn(st, groups, k, i, out, all);
      out := out + [Sent(ps, st[ps].parallel && parallelHead)];
      if st[ps].parallel {
        parallelHead := false;
        if st[ps].nextParallel > -1 {
          ps := st[ps].nextParallel;
          i := i + 1;
          continue;
        } else {
          parallelHead := true;
        }
      }
      if st[pstat].next < 0 {
        assert out == all;
        break;
      }
      pstat := st[pstat].next;
      ps := pstat;
      k, i := k + 1, 0;
    }
    if count2 < count1 {
      header := count2;
    }
  }

  lemma GroupNonempty(st: seq<Station>, g: seq<nat>)
    requires GroupOk(st, g)
    ensures g != []
  {
  }
}

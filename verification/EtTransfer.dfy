/** The transfer loops of the local-to-local bridge, with every way out of them. */
module EtTransfer {
  import opened Words
  import opened EtPort
  import opened EtBridge

  // ----- the books: which events the attachment holds, and who accounts for them -----

  /** An attachment's events and counters when the bridge was called, the events lost since included. */
  datatype Books = Books(mine: set<nat>, taken: multiset<nat>, returned: multiset<nat>)

  function Written(b: Books, lost: set<nat>): Books { Books(b.mine + lost, b.taken + multiset(lost), b.returned) }

  /** Besides what it had, the attachment holds exactly `held`; what it took and no longer holds,
      it returned once. */
  ghost predicate Ledger(p: Port, b: Books, held: set<nat>)
    reads p
  {
    && p.Valid() && b.mine !! held
    && (forall id: nat :: p.Owns(id) <==> id in b.mine || id in held)
    && p.taken + b.returned == p.returned + b.taken + multiset(held)
  }

  /** Everything taken was returned once; unless a return was refused, all is as it was. */
  ghost predicate Settled(p: Port, b: Books, refused: nat)
    reads p
  {
    && p.Valid() && p.taken + b.returned == p.returned + b.taken
    && (p.refused == refused ==> forall id: nat :: p.Owns(id) <==> id in b.mine)
  }

  lemma Twice(ids: seq<nat>, i: nat, j: nat)
    requires i < j < |ids| && ids[i] == ids[j]
    ensures multiset(ids)[ids[i]] >= 2
  {
    assert ids == ids[..j] + [ids[j]] + ids[j + 1..];
    assert ids[..j][i] == ids[j];
  }

  lemma AtMostOnce(ids: seq<nat>, held: set<nat>)
    requires multiset(ids) <= multiset(held)
    ensures NoDuplicates(ids)
    ensures multiset(held) == multiset(ids) + multiset(held - Members(ids))
  {
    forall i, j | 0 <= i < j < |ids| ensures ids[i] != ids[j] {
      if ids[i] == ids[j] {
        Twice(ids, i, j);
      }
    }
    forall id | id in ids ensures multiset(ids)[id] == 1 {
      assert multiset(held)[id] <= 1;
    }
  }

  lemma Distinct(ids: seq<nat>)
    requires NoDuplicates(ids)
    ensures multiset(ids) == multiset(Members(ids)) && |Members(ids)| == |ids|
    decreases |ids|
  {
    if ids != [] {
      var n := |ids| - 1;
      Distinct(ids[..n]);
      assert ids == ids[..n] + [ids[n]];
      assert Members(ids) == Members(ids[..n]) + {ids[n]};
    }
  }

  /** The events may be put. */
  ghost predicate Proper(p: Port, ids: seq<nat>)
    reads p`events
  {
    forall i :: 0 <= i < |ids| ==> ids[i] < |p.events| && Port.EventOk(p.events[ids[i]])
  }

  twostate predicate Quiet(p: Port)
    reads p
  {
    p.misused == old(p.misused) && p.strayed == old(p.strayed) && p.handed == old(p.handed)
        && |p.events| == |old(p.events)|
  }

  twostate predicate Counted(p: Port)
    reads p
  {
    && p.misused == old(p.misused) && p.refused == old(p.refused) && p.handed == old(p.handed)
    && p.sent == old(p.sent) && p.dumped == old(p.dumped) && |p.events| == |old(p.events)|
  }

  /** A put or dump of held events, with the books kept. */
  method HandBack(p: Port, ids: seq<nat>, sending: bool, ghost b: Books, ghost held: set<nat>)
    returns (status: Status, ghost after: Books)
    requires Ledger(p, b, held) && multiset(ids) <= multiset(held)
    requires sending ==> Proper(p, ids)
    modifies p
    ensures Ledger(p, after, held - Members(ids)) && Quiet(p)
    ensures multiset(held) == multiset(ids) + multiset(held - Members(ids))
    ensures sending ==> p.dumped == old(p.dumped)
    ensures status == OK ==> after == b && p.refused == old(p.refused)
    ensures status != OK ==> after.taken == b.taken && after.returned == b.returned && p.refused == old(p.refused) + 1
    ensures sending && status == OK ==> p.sent == old(p.sent) + old(Picked(p.events, ids))
    ensures !(sending && status == OK) ==> p.sent == old(p.sent)
    ensures forall id: nat :: id in held && id !in ids && id < |p.events| ==> p.events[id] == old(p.events[id])
  {
    AtMostOnce(ids, held);
    assert forall i :: 0 <= i < |ids| ==> ids[i] in multiset(ids);
    assert p.OwnsAll(ids);
    if sending {
      status := p.EventsPut(ids);
    } else {
      status := p.EventsDump(ids);
    }
    after := if status == OK then b else b.(mine := b.mine + Members(ids));
  }

  lemma Remaining(held: set<nat>, ids: seq<nat>, others: seq<nat>)
    requires multiset(held) == multiset(ids) + multiset(others)
    ensures multiset(held - Members(ids)) == multiset(others)
    ensures others == [] ==> held - Members(ids) == {}
  {
    AtMostOnce(ids, held);
    var rest := multiset(held - Members(ids));
    assert forall id: nat :: rest[id] == multiset(held)[id] - multiset(ids)[id];
    assert rest == multiset(others);
    assert forall id: nat :: id in held - Members(ids) ==> rest[id] == 1;
  }

  /** Held events returned in three calls. */
  lemma Shares(held: set<nat>, left: seq<nat>, rest: seq<nat>, spare: seq<nat>)
    requires multiset(held) == multiset(left + rest) + multiset(spare)
    ensures multiset(left) <= multiset(held) && multiset(rest) <= multiset(held - Members(left))
    ensures multiset(spare) <= multiset(held - Members(left) - Members(rest))
    ensures held - Members(left) - Members(rest) - Members(spare) == {}
  {
    Remaining(held, left, rest + spare);
    Remaining(held - Members(left), rest, spare);
    assert multiset(spare) == multiset(spare) + multiset([]);
    Remaining(held - Members(left) - Members(rest), spare, []);
  }

  lemma NothingHeld(p: Port, b: Books, after: Books, refused: nat)
    requires Ledger(p, after, {}) && after.taken == b.taken && after.returned == b.returned
    requires p.refused == refused ==> after.mine == b.mine
    ensures Settled(p, b, refused)
  {
  }

  /** Send what is copied, dump the rest. */
  method Cut(to: Port, put: array<nat>, i: nat, numNew: nat, dump: array<nat>, numDump: nat,
             ghost tb: Books, ghost th: set<nat>)
    returns (moved: nat)
    requires i <= numNew <= put.Length && numDump <= dump.Length && Proper(to, put[..i])
    requires Ledger(to, tb, th) && multiset(put[..numNew]) + multiset(dump[..numDump]) == multiset(th)
    modifies to
    ensures Settled(to, tb, old(to.refused)) && Quiet(to)
    ensures moved <= i && to.sent == old(to.sent) + old(Picked(to.events, put[..moved]))
  {
    hide Ledger, Settled, Proper, NoDuplicates, Members, Picked;
    ghost var left, rest, spare := put[..i], put[i..numNew], dump[..numDump];
    assert put[..numNew] == left + rest;
    Shares(th, left, rest, spare);
    var sent, dumped;
    ghost var t1, t2, t3;
    sent, t1 := HandBack(to, put[..i], true, tb, th);
    moved := if sent == OK then i else 0;
    assert put[..0] == [] && old(Picked(to.events, [])) == [];
    dumped, t2 := HandBack(to, put[i..numNew], false, t1, th - Members(left));
    dumped, t3 := HandBack(to, dump[..numDump], false, t2, th - Members(left) - Members(rest));
    NothingHeld(to, tb, t3, old(to.refused));
  }

  /** The batch goes back to where it came from. */
  method PutBack(from: Port, get: array<nat>, numRead: nat, ghost fb: Books, ghost fh: set<nat>)
      returns (status: Status)
    requires numRead <= get.Length && Proper(from, get[..numRead])
    requires Ledger(from, fb, fh) && multiset(get[..numRead]) == multiset(fh)
    modifies from
    ensures Settled(from, fb, old(from.refused)) && Quiet(from) && from.dumped == old(from.dumped)
    ensures status == OK ==> Ledger(from, fb, {}) && from.refused == old(from.refused)
  {
    hide Ledger, Settled, Proper, NoDuplicates, Members, Picked;
    assert multiset(fh) == multiset(get[..numRead]) + multiset([]);
    Remaining(fh, get[..numRead], []);
    ghost var fn;
    status, fn := HandBack(from, get[..numRead], true, fb, fh);
    NothingHeld(from, fb, fn, old(from.refused));
  }

  // ----- one pass -----

  /** The user's conversion routine may refuse, and writes what it likes into the new event's data. */
  method Convert(memory: seq<u8>) returns (converted: seq<u8>, ok: bool)
    ensures |converted| == |memory|
  {
    converted, ok := *, *;
    if |converted| != |memory| {
      converted := memory;
    }
  }

  method CopyOne(from: Port, to: Port, src: nat, dst: nat, want: Option<u32>) returns (ok: bool)
    requires from != to && src < |from.events| && Port.EventOk(from.events[src])
    requires to.Valid() && to.Owns(dst) && from.events[src].length <= |to.events[dst].memory|
    modifies to`events
    ensures to.Valid() && |to.events| == |old(to.events)| && forall id: nat :: to.Owns(id) <==> old(to.Owns(id))
    ensures forall id: nat :: id != dst && id < |to.events| ==> to.events[id] == old(to.events[id])
    ensures ok ==> Port.EventOk(to.events[dst]) && Copied(from.events[src], to.events[dst], to.nselects, want)
    ensures !Swaps(from.events[src].byteorder, want) ==> ok
  {
    var get, put := from.events[src], to.events[dst];
    put := put.(length := get.length, priority := get.priority, byteorder := get.byteorder);
    for k := 0 to to.nselects
      invariant |put.control| == SELECT_INTS && put.control[..k] == get.control[..k]
      invariant put == to.events[dst].(length := get.length, priority := get.priority, byteorder := get.byteorder,
              control := put.control)
    {
      put := put.(control := put.control[k := get.control[k]]);
    }
    ok := true;
    if !Swaps(put.byteorder, want) {
      put := put.(memory := get.memory[..get.length] + put.memory[get.length..]);
    } else {
      var converted;
      converted, ok := Convert(put.memory);
      put := put.(memory := converted, byteorder := if ok then SwapWord(put.byteorder) else put.byteorder);
    }
    to.events := to.events[dst := put];
  }

  lemma SetAside(held: set<nat>, slots: seq<nat>, i: nat, spare: seq<nat>, x: nat)
    requires i < |slots| && multiset(slots) + multiset(spare) == multiset(held) && x !in held
    ensures slots[i] in held
    ensures multiset(slots[i := x]) + multiset(spare + [slots[i]]) == multiset(held + {x})
    ensures multiset(slots[i := x]) + multiset(spare) == multiset(held + {x} - {slots[i]})
  {
    assert slots[i] in multiset(slots);
    assert multiset(held)[slots[i]] == 1;
    assert multiset(slots[i := x]) == multiset(slots) - multiset{slots[i]} + multiset{x};
    assert multiset(held + {x}) == multiset(held) + multiset{x};
    assert multiset(held + {x} - {slots[i]}) == multiset(held) + multiset{x} - multiset{slots[i]};
  }

  lemma OneGained(p: Port, b: Books, held: set<nat>, x: nat)
    requires p.Valid() && b.mine !! held && x !in b.mine && x !in held
    requires forall id: nat :: p.Owns(id) <==> id in b.mine || id in held || id == x
    requires p.taken + b.returned == p.returned + b.taken + multiset(held) + multiset{x}
    ensures Ledger(p, b, held + {x})
  {
    assert multiset(held + {x}) == multiset(held) + multiset{x};
  }

  lemma OneLost(p: Port, b: Books, held: set<nat>, x: nat)
    requires Ledger(p, b, held) && x in held
    ensures Ledger(p, Written(b, {x}), held - {x})
  {
    assert multiset(held - {x}) + multiset({x}) == multiset(held);
  }

  lemma NoneLost(b: Books)
    ensures Written(b, {}) == b
  {
    assert b.mine + {} == b.mine;
  }

  /** `et_event_new` into a slot, with the books kept: `got` is empty or the event now in the slot. */
  method Obtain(to: Port, put: array<nat>, i: nat, size: nat, ghost tb: Books, ghost th: set<nat>)
    returns (status: Status, ghost got: set<nat>)
    requires i < put.Length && Ledger(to, tb, th)
    modifies to, put
    ensures got !! th && Ledger(to, tb, th + got) && Counted(to)
    ensures got == {} ==> put[..] == old(put[..])
    ensures got != {} ==> put[..] == old(put[..])[i := put[i]] && got == {put[i]}
    ensures to.strayed == old(to.strayed) + if status == OK then 0 else |got|
    ensures status != OK && size <= to.eventSize ==> got == {}
    ensures status == OK ==> got != {} && put[i] < |to.events| && |to.events[put[i]].memory| >= size
    ensures forall id: nat :: id in th && id < |to.events| ==> to.events[id] == old(to.events[id])
  {
    hide NoDuplicates, Port.EventOk;
    ghost var ids;
    status, ids := to.EventNew(put, i, size);
    got := {};
    assert th + {} == th;
    if ids != [] {
      assert ids == [put[i]];
      assert !old(to.Owns(ids[0]));
      assert to.taken == old(to.taken) + multiset{put[i]};
      OneGained(to, tb, th, put[i]);
      got := {put[i]};
    }
  }

  /** The data of every event fits an event of `size` bytes. */
  predicate AllShort(srcs: seq<Event>, size: nat) { forall k :: 0 <= k < |srcs| ==> srcs[k].length <= size }

  /** A new event that is too small is set aside for the dump, a larger one takes its place.  If that
      fails the slot may hold yet another event by then, and the one set aside is in no list any more:
      never if the size asked for is an ordinary one. */
  method MakeRoom(to: Port, put: array<nat>, i: nat, numNew: nat, dump: array<nat>, numDump: nat, size: nat,
                  ghost tb: Books, ghost th: set<nat>)
    returns (status: Status, nd: nat, ghost lost: set<nat>, ghost now: set<nat>, ghost how: Replacement)
    requires put != dump && i < numNew <= put.Length && numDump < dump.Length
    requires Ledger(to, tb, th) && multiset(put[..numNew]) + multiset(dump[..numDump]) == multiset(th)
    modifies to, put, dump
    ensures numDump <= nd <= dump.Length
    ensures Ledger(to, Written(tb, lost), now) && multiset(put[..numNew]) + multiset(dump[..nd]) == multiset(now)
    ensures (put[..numNew], dump[..nd]) == Replaced(old(put[..numNew]), old(dump[..numDump]), i, how)
    ensures status == OK <==> how.Made?
    ensures lost == if how.ReadOnly? then {old(put[i])} else {}
    ensures size <= to.eventSize ==> lost == {}
    ensures status == OK ==> nd == numDump + 1
    ensures status == OK ==> put[i] < |to.events| && |to.events[put[i]].memory| >= size
    ensures status != OK ==> nd == numDump
    ensures to.strayed == old(to.strayed) + |lost| && Counted(to)
    ensures forall k :: 0 <= k < put.Length && k != i ==> put[k] == old(put[k])
    ensures forall id: nat :: id in th && id < |to.events| ==> to.events[id] == old(to.events[id])
  {
    hide Ledger, Written, NoDuplicates, Port.EventOk, Members, Picked;
    nd, lost, now, how := numDump, {}, th, NotRead;
    NoneLost(tb);
    ghost var was, small, spare := put[..numNew], put[i], dump[..nd];
    dump[nd] := put[i];
    nd := nd + 1;
    assert dump[..nd] == spare + [small];
    ghost var got;
    status, got := Obtain(to, put, i, size, tb, th);
    assert dump[..numDump] == spare;
    now := th + got;
    if got != {} {
      SetAside(th, was, i, spare, put[i]);
      assert put[..numNew] == was[i := put[i]];
      how := if status == OK then Made(put[i]) else ReadOnly(put[i]);
      if status != OK {
        OneLost(to, tb, now, small);
        now, lost := now - {small}, {small};
      }
    }
    if status != OK {
      nd := nd - 1;
    }
  }

  /** The copies stand in the first `n` slots, ready to be put. */
  ghost predicate Ready(to: Port, put: array<nat>, n: nat, srcs: seq<Event>, want: Option<u32>)
    reads to`events, put
    requires n <= put.Length && n <= |srcs|
  {
    forall k :: 0 <= k < n ==>
      put[k] < |to.events| && Port.EventOk(to.events[put[k]]) && Copied(srcs[k], to.events[put[k]], to.nselects, want)
  }

  /** What was sent since are copies of the first sources. */
  predicate Sent(before: seq<Event>, sent: seq<Event>, moved: nat, srcs: seq<Event>, nselects: nat, want: Option<u32>) {
    && moved <= |srcs| && |sent| == |before| + moved && sent[..|before|] == before
    && AllCopied(srcs[..moved], sent[|before|..], nselects, want)
  }

  lemma ReadyProper(to: Port, put: array<nat>, n: nat, srcs: seq<Event>, want: Option<u32>)
    requires n <= put.Length && n <= |srcs| && Ready(to, put, n, srcs, want)
    ensures Proper(to, put[..n])
    ensures forall m :: 0 <= m <= n ==> AllCopied(srcs[..m], Picked(to.events, put[..m]), to.nselects, want)
  {
    hide Copied, Port.EventOk;
  }

  lemma SlotsHeld(to: Port, b: Books, held: set<nat>, slots: seq<nat>, spare: seq<nat>)
    requires Ledger(to, b, held) && multiset(slots) + multiset(spare) == multiset(held)
    ensures NoDuplicates(slots) && forall i :: 0 <= i < |slots| ==> slots[i] in held && to.Owns(slots[i])
  {
    AtMostOnce(slots, held);
    assert forall i :: 0 <= i < |slots| ==> slots[i] in multiset(slots);
  }

  lemma ReadyNone(to: Port, put: array<nat>, srcs: seq<Event>, want: Option<u32>)
    ensures Ready(to, put, 0, srcs, want)
  {
  }

  /** One event of the pass. */
  method CopyNext(from: Port, to: Port, src: nat, put: array<nat>, i: nat, numNew: nat, dump: array<nat>, numDump: nat,
                  want: Option<u32>, ghost srcs: seq<Event>, ghost tb: Books, ghost th: set<nat>)
    returns (ok: bool, status: Status, nd: nat, ghost lost: set<nat>, ghost now: set<nat>)
    requires from != to && put != dump && i < numNew <= put.Length && numDump < dump.Length
    requires src < |from.events| && Port.EventOk(from.events[src]) && i < |srcs| && srcs[i] == from.events[src]
    requires Ledger(to, tb, th) && multiset(put[..numNew]) + multiset(dump[..numDump]) == multiset(th)
    requires Ready(to, put, i, srcs, want)
    modifies to, put, dump
    ensures numDump <= nd <= numDump + 1 && Counted(to) && to.strayed == old(to.strayed) + |lost|
    ensures Ledger(to, Written(tb, lost), now) && multiset(put[..numNew]) + multiset(dump[..nd]) == multiset(now)
    ensures ok ==> lost == {} && Ready(to, put, i + 1, srcs, want)
    ensures !ok ==> Ready(to, put, i, srcs, want) && (want.None? ==> status != OK)
    ensures srcs[i].length <= to.eventSize ==> lost == {}
  {
    hide Ledger, Copied, Written, Port.EventOk, NoDuplicates;
    status, nd, lost, now := OK, numDump, {}, th;
    NoneLost(tb);
    SlotsHeld(to, tb, th, put[..numNew], dump[..numDump]);
    assert forall k :: 0 <= k < numNew ==> put[k] == put[..numNew][k];
    if from.events[src].length > |to.events[put[i]].memory| {
      ghost var how;
      status, nd, lost, now, how := MakeRoom(to, put, i, numNew, dump, numDump, from.events[src].length, tb, th);
      if status != OK {
        ok := false;
        return;
      }
    }
    ok := Finish(from, to, src, put, i, numNew, want, srcs, tb, now, dump[..nd]);
  }

  method Finish(from: Port, to: Port, src: nat, put: array<nat>, i: nat, numNew: nat,
                want: Option<u32>, ghost srcs: seq<Event>, ghost tb: Books, ghost th: set<nat>, ghost spare: seq<nat>)
    returns (ok: bool)
    requires from != to && i < numNew <= put.Length
    requires src < |from.events| && Port.EventOk(from.events[src]) && i < |srcs| && srcs[i] == from.events[src]
    requires Ledger(to, tb, th) && multiset(put[..numNew]) + multiset(spare) == multiset(th)
    requires Ready(to, put, i, srcs, want)
    requires put[i] < |to.events| && from.events[src].length <= |to.events[put[i]].memory|
    modifies to`events
    ensures Counted(to) && Ledger(to, tb, th) && Ready(to, put, i, srcs, want)
    ensures ok ==> Ready(to, put, i + 1, srcs, want)
    ensures want.None? ==> ok
  {
    hide Copied, NoDuplicates, Port.EventOk;
    SlotsHeld(to, tb, th, put[..numNew], spare);
    assert forall k :: 0 <= k < numNew ==> put[k] == put[..numNew][k];
    ok := CopyOne(from, to, src, put[i], want);
  }

  /** The way out in the middle of a pass: return the batch, send what is copied, dump the rest. */
  method Abandon(from: Port, to: Port, get: array<nat>, numRead: nat, put: array<nat>, i: nat, numNew: nat,
                 dump: array<nat>, numDump: nat, want: Option<u32>,
                 ghost srcs: seq<Event>, ghost fb: Books, ghost fh: set<nat>, ghost tb: Books, ghost th: set<nat>)
    returns (moved: nat)
    requires from != to && numRead <= get.Length && i <= numNew <= put.Length && numDump <= dump.Length && i <= |srcs|
    requires Ledger(from, fb, fh) && multiset(get[..numRead]) == multiset(fh) && Proper(from, get[..numRead])
    requires Ledger(to, tb, th) && multiset(put[..numNew]) + multiset(dump[..numDump]) == multiset(th)
    requires Ready(to, put, i, srcs, want)
    modifies from, to
    ensures Settled(from, fb, old(from.refused)) && Quiet(from) && from.dumped == old(from.dumped)
    ensures Settled(to, tb, old(to.refused)) && Quiet(to)
    ensures moved <= i && Sent(old(to.sent), to.sent, moved, srcs, to.nselects, want)
  {
    hide Ledger, Settled, AllCopied, Port.EventOk, NoDuplicates, Picked;
    ReadyProper(to, put, i, srcs, want);
    ghost var before, events := to.sent, to.events;
    var status := PutBack(from, get, numRead, fb, fh);
    moved := Cut(to, put, i, numNew, dump, numDump, tb, th);
    assert to.sent[|before|..] == Picked(events, put[..moved]);
  }

  method CopyPass(from: Port, to: Port, get: array<nat>, numRead: nat, put: array<nat>, numNew: nat, dump: array<nat>,
                  offset: nat, want: Option<u32>,
                  ghost srcs: seq<Event>, ghost fb: Books, ghost fh: set<nat>, ghost tb: Books, ghost th: set<nat>)
    returns (go: bool, status: Status, moved: nat, numDump: nat, ghost lost: set<nat>, ghost now: set<nat>)
    requires from != to && get != put && get != dump && put != dump
    requires offset + numNew <= numRead <= get.Length && numNew <= put.Length && numNew <= dump.Length
    requires Ledger(from, fb, fh) && multiset(get[..numRead]) == multiset(fh) && Proper(from, get[..numRead])
    requires |srcs| == numNew && forall k :: 0 <= k < numNew ==> srcs[k] == from.events[get[offset + k]]
    requires Ledger(to, tb, th) && multiset(put[..numNew]) == multiset(th)
    modifies from, to, put, dump
    ensures numDump <= numNew && to.strayed == old(to.strayed) + |lost|
    ensures go ==> unchanged(from) && Counted(to) && lost == {} && moved == 0
    ensures go ==> Ledger(to, tb, now) && multiset(put[..numNew]) + multiset(dump[..numDump]) == multiset(now)
    ensures go ==> Ready(to, put, numNew, srcs, want)
    ensures !go ==> Settled(from, fb, old(from.refused)) && Quiet(from) && from.dumped == old(from.dumped)
    ensures AllShort(srcs, to.eventSize) ==> lost == {}
    ensures !go ==> Settled(to, Written(tb, lost), old(to.refused))
    ensures !go ==> to.misused == old(to.misused) && to.handed == old(to.handed)
    ensures !go ==> moved <= numNew && Sent(old(to.sent), to.sent, moved, srcs, to.nselects, want)
    ensures !go && want.None? ==> status != OK
  {
    hide Ledger, Settled, Ready, Sent, Written, Port.EventOk, NoDuplicates;
    status, moved, numDump, lost, now := OK, 0, 0, {}, th;
    NoneLost(tb);
    ReadyNone(to, put, srcs, want);
    for i := 0 to numNew
      invariant unchanged(from) && Counted(to) && to.strayed == old(to.strayed) && numDump <= i && lost == {}
              && moved == 0
      invariant Ledger(to, tb, now) && multiset(put[..numNew]) + multiset(dump[..numDump]) == multiset(now)
      invariant Ready(to, put, i, srcs, want)
    {
      var j := i + offset;
      assert get[j] == get[..numRead][j];
      var ok;
      ok, status, numDump, lost, now := CopyNext(from, to, get[j], put, i, numNew, dump, numDump, want, srcs, tb, now);
      if !ok {
        moved := Abandon(from, to, get, numRead, put, i, numNew, dump, numDump, want, srcs, fb, fh,
            Written(tb, lost), now);
        go := false;
        return;
      }
    }
    go := true;
  }

  // ----- a batch -----

  lemma ManyGained(p: Port, b: Books, ids: seq<nat>)
    requires p.Valid() && NoDuplicates(ids) && forall i :: 0 <= i < |ids| ==> ids[i] !in b.mine
    requires forall id: nat :: p.Owns(id) <==> id in b.mine || id in ids
    requires p.taken + b.returned == p.returned + b.taken + multiset(ids)
    ensures Ledger(p, b, Members(ids)) && multiset(Members(ids)) == multiset(ids) && |Members(ids)| == |ids|
    ensures Ledger(p, Written(b, Members(ids)), {})
  {
    Distinct(ids);
    var none: set<nat> := {};
    assert multiset(none) == multiset{};
  }

  lemma Balanced(p: Port, b: Books)
    requires Ledger(p, b, {})
    ensures p.Valid() && p.taken + b.returned == p.returned + b.taken
    ensures forall id: nat :: p.Owns(id) <==> id in b.mine
  {
    var none: set<nat> := {};
    assert multiset(none) == multiset{};
  }

  /** `et_events_new`, with the books kept. */
  method ObtainMany(to: Port, put: array<nat>, size: nat, num: nat, ghost tb: Books)
    returns (status: Status, n: nat, ghost got: set<nat>)
    requires 1 <= num <= put.Length && Ledger(to, tb, {})
    modifies to, put
    ensures Counted(to) && to.strayed == old(to.strayed) + if status == OK then 0 else |got|
    ensures status == OK ==> 1 <= n <= num && Ledger(to, tb, got) && multiset(put[..n]) == multiset(got)
    ensures status != OK ==> Ledger(to, Written(tb, got), {})
    ensures status != OK && size <= to.eventSize ==> got == {}
  {
    hide Port.EventOk, Ledger, Written, NoDuplicates;
    ghost var ids;
    Balanced(to, tb);
    status, n, ids := to.EventsNew(put, size, num);
    got := Members(ids);
    assert to.taken + tb.returned == old(to.taken) + tb.returned + multiset(ids);
    assert forall i :: 0 <= i < |ids| ==> !old(to.Owns(ids[i]));
    ManyGained(to, tb, ids);
  }

  /** Send the pass, then dump what was too small. */
  method SendPass(from: Port, to: Port, get: array<nat>, numRead: nat, put: array<nat>, numNew: nat,
                  dump: array<nat>, numDump: nat, want: Option<u32>,
                  ghost srcs: seq<Event>, ghost fb: Books, ghost fh: set<nat>, ghost tb: Books, ghost th: set<nat>)
    returns (go: bool, status: Status, moved: nat)
    requires from != to && numRead <= get.Length && numNew <= put.Length && numDump <= dump.Length && numNew <= |srcs|
    requires Ledger(from, fb, fh) && multiset(get[..numRead]) == multiset(fh) && Proper(from, get[..numRead])
    requires Ledger(to, tb, th) && multiset(put[..numNew]) + multiset(dump[..numDump]) == multiset(th)
    requires Ready(to, put, numNew, srcs, want)
    modifies from, to
    ensures Quiet(from) && Quiet(to) && from.dumped == old(from.dumped)
    ensures go ==> unchanged(from) && Ledger(to, tb, {}) && to.refused == old(to.refused)
    ensures go ==> moved == numNew && status == OK
    ensures !go ==> Settled(from, fb, old(from.refused)) && Settled(to, tb, old(to.refused)) && status != OK
    ensures moved <= numNew && Sent(old(to.sent), to.sent, moved, srcs, to.nselects, want)
  {
    hide Ledger, Settled, AllCopied, Port.EventOk, NoDuplicates, Picked, Members;
    ReadyProper(to, put, numNew, srcs, want);
    ghost var slots, spare, before, events := put[..numNew], dump[..numDump], to.sent, to.events;
    Remaining(th, slots, spare);
    assert multiset(spare) == multiset(spare) + multiset([]);
    Remaining(th - Members(slots), spare, []);
    ghost var t1, t2;
    status, t1 := HandBack(to, put[..numNew], true, tb, th);
    assert put[..0] == [] && Picked(events, put[..0]) == [];
    moved := if status == OK then numNew else 0;
    assert to.sent[|before|..] == Picked(events, put[..moved]);
    var dumped, back;
    if status != OK {
      dumped, t2 := HandBack(to, dump[..numDump], false, t1, th - Members(slots));
      NothingHeld(to, tb, t2, old(to.refused));
      back := PutBack(from, get, numRead, fb, fh);
      return false, status, moved;
    }
    if numDump > 0 {
      status, t2 := HandBack(to, dump[..numDump], false, t1, th - Members(slots));
      NothingHeld(to, tb, t2, old(to.refused));
      if status != OK {
        back := PutBack(from, get, numRead, fb, fh);
        return false, status, moved;
      }
    }
    go := true;
  }

  /** One pass over a batch, from the source index `prev`.  `numNew` stays 0 if no new events came. */
  method ServePass(from: Port, to: Port, config: Config, get: array<nat>, numRead: nat, put: array<nat>,
      dump: array<nat>,
                   total: nat, prev: nat,
                   ghost srcs: seq<Event>, ghost fb: Books, ghost fh: set<nat>, ghost tb: Books)
    returns (go: bool, status: Status, numNew: nat, moved: nat, ghost lost: set<nat>)
    requires from != to && get != put && get != dump && put != dump && config.chunkTo >= 1
    requires prev <= total < numRead <= get.Length && numRead <= put.Length && numRead <= dump.Length
    requires Ledger(from, fb, fh) && multiset(get[..numRead]) == multiset(fh) && Proper(from, get[..numRead])
    requires |srcs| == numRead && forall k :: 0 <= k < numRead ==> srcs[k] == from.events[get[k]]
    requires Ledger(to, tb, {})
    modifies from, to, put, dump
    ensures numNew <= numRead - total && numNew <= config.chunkTo && to.strayed == old(to.strayed) + |lost|
    ensures Quiet(from) && from.dumped == old(from.dumped) && to.misused == old(to.misused)
            && to.handed == old(to.handed)
    ensures from.eventSize <= to.eventSize && AllShort(srcs, to.eventSize) ==> lost == {}
    ensures go ==> unchanged(from) && Ledger(to, tb, {}) && to.refused == old(to.refused)
    ensures go ==> lost == {} && moved == numNew >= 1
    ensures !go ==> Settled(from, fb, old(from.refused)) && Settled(to, Written(tb, lost), old(to.refused))
    ensures moved <= numNew && Sent(old(to.sent), to.sent, moved, srcs[prev..prev + numNew], to.nselects, config.want)
    ensures !go && config.want.None? ==> status != OK
  {
    hide Ledger, Settled, Ready, Written, Port.EventOk, NoDuplicates, Copied;
    moved, lost, numNew := 0, {}, 0;
    NoneLost(tb);
    var num := if numRead - total < config.chunkTo then numRead - total else config.chunkTo;
    ghost var got;
    var n;
    status, n, got := ObtainMany(to, put, from.eventSize, num, tb);
    if status != OK {
      lost := got;
      NothingHeld(to, Written(tb, lost), Written(tb, lost), old(to.refused));
      var back := PutBack(from, get, numRead, fb, fh);
      return false, status, numNew, moved, lost;
    }
    numNew := n;
    var numDump;
    ghost var part, now := srcs[prev..prev + n], got;
    go, status, moved, numDump, lost, now :=
      CopyPass(from, to, get, numRead, put, n, dump, prev, config.want, part, fb, fh, tb, got);
    if go {
      go, status, moved := SendPass(from, to, get, numRead, put, n, dump, numDump, config.want, part, fb, fh, tb, now);
    }
  }

  lemma OneMore(passes: seq<nat>, n: nat)
    ensures Sum(passes + [n]) == Sum(passes) + n && Offset(passes + [n]) == n
    ensures Indices(passes + [n]) == Indices(passes) + Range(Offset(passes), n)
  {
    hide Range;
    assert (passes + [n])[..|passes|] == passes;
  }

  lemma OnePassMore(srcs: seq<Event>, passes: seq<nat>, n: nat)
    requires Sound(Batch(srcs, passes)) && 1 <= n && Sum(passes) + n <= |srcs|
    ensures Sum(passes + [n]) == Sum(passes) + n && Sound(Batch(srcs, passes + [n]))
    ensures Offset(passes + [n]) == n && Offset(passes) <= Sum(passes)
    ensures Shipped(Batch(srcs, passes + [n])) == Shipped(Batch(srcs, passes))
            + srcs[Offset(passes)..Offset(passes) + n]
  {
    hide Sum, Indices, Offset;
    OffsetInside(passes);
    OneMore(passes, n);
  }

  lemma SentMore(start: seq<Event>, middle: seq<Event>, end: seq<Event>, one: seq<Event>, two: seq<Event>, m: nat,
                 nselects: nat, want: Option<u32>)
    requires Sent(start, middle, |one|, one, nselects, want) && Sent(middle, end, m, two, nselects, want)
    ensures Sent(start, end, |one| + m, one + two, nselects, want)
  {
    hide Copied;
    var all, sent := (one + two)[..|one| + m], end[|start|..];
    forall k | 0 <= k < |all| ensures Copied(all[k], sent[k], nselects, want) {
      if k < |one| {
        assert one[..|one|][k] == all[k] && middle[|start|..][k] == end[..|middle|][|start| + k] == sent[k];
      } else {
        assert two[..m][k - |one|] == all[k] && end[|middle|..][k - |one|] == sent[k];
      }
    }
  }

  method ServeBatch(from: Port, to: Port, config: Config, get: array<nat>, numRead: nat, put: array<nat>,
      dump: array<nat>,
                    ghost srcs: seq<Event>, ghost fb: Books, ghost fh: set<nat>, ghost tb: Books)
    returns (go: bool, status: Status, moved: nat, ghost passes: seq<nat>, ghost lost: set<nat>)
    requires from != to && get != put && get != dump && put != dump && config.chunkTo >= 1
    requires numRead <= get.Length && numRead <= put.Length && numRead <= dump.Length
    requires Ledger(from, fb, fh) && multiset(get[..numRead]) == multiset(fh) && Proper(from, get[..numRead])
    requires |srcs| == numRead && forall k :: 0 <= k < numRead ==> srcs[k] == from.events[get[k]]
    requires Ledger(to, tb, {})
    modifies from, to, put, dump
    ensures Quiet(from) && from.dumped == old(from.dumped) && to.misused == old(to.misused)
            && to.handed == old(to.handed)
    ensures to.strayed == old(to.strayed) + |lost|
    ensures from.eventSize <= to.eventSize && AllShort(srcs, to.eventSize) ==> lost == {}
    ensures go ==> unchanged(from) && Ledger(to, tb, {}) && to.refused == old(to.refused) && lost == {}
    ensures go ==> moved == Sum(passes) == numRead
    ensures !go ==> Settled(from, fb, old(from.refused)) && Settled(to, Written(tb, lost), old(to.refused))
    ensures Sound(Batch(srcs, passes)) && forall i :: 0 <= i < |passes| ==> passes[i] <= config.chunkTo
    ensures moved <= Sum(passes) <= numRead
            && Sent(old(to.sent), to.sent, moved, Shipped(Batch(srcs, passes)), to.nselects, config.want)
    ensures !go && config.want.None? ==> status != OK
  {
    hide Ledger, Settled, Written, Proper, Shipped, Offset, Sum;
    go, status, moved, passes, lost := true, OK, 0, [], {};
    var total, prev := 0, 0;
    NothingYet(srcs, to.sent, to.nselects, config.want);
    while total < numRead
      invariant unchanged(from) && Ledger(to, tb, {}) && lost == {} && go
      invariant to.misused == old(to.misused) && to.handed == old(to.handed) && to.strayed == old(to.strayed)
              && to.refused == old(to.refused)
      invariant total <= numRead && moved == total == Sum(passes) && prev == Offset(passes)
      invariant Sound(Batch(srcs, passes)) && forall i :: 0 <= i < |passes| ==> passes[i] <= config.chunkTo
      invariant Sent(old(to.sent), to.sent, total, Shipped(Batch(srcs, passes)), to.nselects, config.want)
    {
      ghost var middle := to.sent;
      OffsetInside(passes);
      var n, m;
      go, status, n, m, lost := ServePass(from, to, config, get, numRead, put, dump, total, prev, srcs, fb, fh, tb);
      if n > 0 {
        OnePassMore(srcs, passes, n);
        SentMore(old(to.sent), middle, to.sent, Shipped(Batch(srcs, passes)), srcs[prev..prev + n], m, to.nselects,
            config.want);
        passes := passes + [n];
      }
      moved := moved + m;
      if !go {
        return;
      }
      total := total + n;
      prev := n;
    }
  }

  lemma NothingYet(srcs: seq<Event>, sent: seq<Event>, nselects: nat, want: Option<u32>)
    ensures Sound(Batch(srcs, [])) && Sum([]) == Offset([]) == 0
    ensures Sent(sent, sent, 0, Shipped(Batch(srcs, [])), nselects, want)
  {
  }

  /** `et_events_get`, with the books kept. */
  method ObtainBatch(from: Port, get: array<nat>, num: nat, ghost fb: Books)
    returns (status: Status, n: nat, ghost got: set<nat>)
    requires 1 <= num && |from.events| <= get.Length && Ledger(from, fb, {})
    modifies from, get
    ensures from.misused == old(from.misused) && from.dumped == old(from.dumped)
    ensures from.refused == old(from.refused) && |from.events| == |old(from.events)|
    ensures from.strayed == old(from.strayed) + if status == OK then 0 else |got|
    ensures status == OK ==>
            1 <= n <= num && n <= get.Length && Ledger(from, fb, got) && multiset(get[..n]) == multiset(got)
    ensures status == OK ==> Proper(from, get[..n]) && from.handed == old(from.handed) + Picked(from.events, get[..n])
    ensures status != OK ==> Ledger(from, Written(fb, got), {}) && from.handed == old(from.handed)
  {
    hide Port.EventOk, Ledger, Picked, Written, NoDuplicates;
    ghost var ids;
    Balanced(from, fb);
    status, n, ids := from.EventsGet(get, num);
    got := Members(ids);
    assert from.taken + fb.returned == old(from.taken) + fb.returned + multiset(ids);
    assert forall i :: 0 <= i < |ids| ==> !old(from.Owns(ids[i]));
    ManyGained(from, fb, ids);
    if status == OK {
      assert forall i :: 0 <= i < n ==> get[..n][i] == ids[i] == get[i];
    }
  }

  // ----- the whole transfer -----

  lemma InRange(p: Port, ids: seq<nat>)
    requires Proper(p, ids)
    ensures forall i :: 0 <= i < |ids| ==> ids[i] < |p.events|
  {
  }

  ghost function Opened(p: Port): (b: Books)
    requires p.Valid()
    reads p
    ensures Ledger(p, b, {})
  {
    var none: set<nat> := {};
    assert multiset(none) == multiset{};
    Books((set id | 0 <= id < |p.events| && p.events[id].owner == p.att), p.taken, p.returned)
  }

  predicate Complete(b: Batch) { Sum(b.passes) == |b.sources| }

  predicate WithinChunks(b: Batch, chunk: nat) { forall i :: 0 <= i < |b.passes| ==> b.passes[i] <= chunk }

  lemma LogMore(log: seq<Batch>, b: Batch)
    requires AllSound(log) && Sound(b)
    ensures AllSound(log + [b]) && AllShipped(log + [b]) == AllShipped(log) + Shipped(b)
    ensures Sources(log + [b]) == Sources(log) + b.sources
  {
    assert (log + [b])[..|log|] == log;
  }

  lemma ShortPart(before: seq<Event>, srcs: seq<Event>, size: nat)
    ensures AllShort(before + srcs, size) ==> AllShort(srcs, size)
  {
    assert forall k :: 0 <= k < |srcs| ==> (before + srcs)[|before| + k] == srcs[k];
  }

  lemma EmptyLog(sent: seq<Event>, nselects: nat, want: Option<u32>)
    ensures AllSound([]) && AllShipped([]) == [] && Sources([]) == [] && Sent(sent, sent, 0, [], nselects, want)
  {
  }

  method LocalToLocal(from: Port, to: Port, config: Config, num: nat)
    returns (status: Status, ntransferred: nat, ghost log: seq<Batch>, ghost astray: set<nat>, ghost lost: set<nat>)
    requires from != to && from.Valid() && to.Valid() && config.chunkFrom >= 1 && config.chunkTo >= 1
    modifies from, to
    ensures Settled(from, Written(old(Opened(from)), astray), old(from.refused))
    ensures Settled(to, Written(old(Opened(to)), lost), old(to.refused))
    ensures from.strayed == old(from.strayed) + |astray| && to.strayed == old(to.strayed) + |lost|
    ensures from.misused == old(from.misused) && to.misused == old(to.misused) && from.dumped == old(from.dumped)
    ensures from.eventSize <= to.eventSize && AllShort(Sources(log), to.eventSize) ==> lost == {}
    ensures AllSound(log) && forall i :: 0 <= i < |log| - 1 ==> Complete(log[i])
    ensures forall i, j :: 0 <= i < |log| && 0 <= j < |log[i].passes| ==> log[i].passes[j] <= config.chunkTo
    ensures from.handed == old(from.handed) + Sources(log)
    ensures ntransferred <= |AllShipped(log)|
            && Sent(old(to.sent), to.sent, ntransferred, AllShipped(log), to.nselects, config.want)
    ensures ntransferred <= num && (status == OK && config.want.None? ==> ntransferred == num)
    // The account in plain terms: what was taken was handed back once, but for what failed calls kept.
    ensures from.taken + old(from.returned) == from.returned + old(from.taken) + multiset(astray)
    ensures to.taken + old(to.returned) == to.returned + old(to.taken) + multiset(lost)
    ensures from.refused == old(from.refused) ==>
              forall id: nat :: from.Owns(id) <==> old(from.Owns(id)) || id in astray
    ensures to.refused == old(to.refused) ==>
              forall id: nat :: to.Owns(id) <==> old(to.Owns(id)) || id in lost
  {
    hide Ledger, Settled, Sent, Written, Proper, Shipped, Sum, AllShipped, Sources, Opened, Sound, AllShort,
         Picked, Port.EventOk, NoDuplicates, Members, AllCopied, Copied;
    var numLimit := |from.events|;
    var get, put, dump := new nat[numLimit], new nat[numLimit], new nat[numLimit];
    ghost var fb, tb := Opened(from), Opened(to);
    status, ntransferred, log, astray, lost := OK, 0, [], {}, {};
    NoneLost(fb);
    NoneLost(tb);
    EmptyLog(to.sent, to.nselects, config.want);
    var totalRead := 0;
    ghost var stopped := false;
    while totalRead < num
      invariant Ledger(from, fb, {}) && Ledger(to, tb, {}) && status == OK && astray == {} && lost == {}
      invariant |from.events| == numLimit && from.refused == old(from.refused) && to.refused == old(to.refused)
      invariant from.strayed == old(from.strayed) && to.strayed == old(to.strayed)
      invariant from.misused == old(from.misused) && to.misused == old(to.misused) && from.dumped == old(from.dumped)
      invariant AllSound(log) && forall i :: 0 <= i < |log| ==> Complete(log[i]) && WithinChunks(log[i], config.chunkTo)
      invariant from.handed == old(from.handed) + Sources(log)
      invariant ntransferred == totalRead == |AllShipped(log)| <= num
      invariant Sent(old(to.sent), to.sent, ntransferred, AllShipped(log), to.nselects, config.want)
    {
      NothingHeld(to, tb, tb, old(to.refused));
      var num2get := if num - totalRead < config.chunkFrom then num - totalRead else config.chunkFrom;
      var numRead;
      ghost var fh;
      status, numRead, fh := ObtainBatch(from, get, num2get, fb);
      if status != OK {
        astray := fh;
        NothingHeld(from, Written(fb, astray), Written(fb, astray), old(from.refused));
        stopped := true;
        break;
      }
      totalRead := totalRead + numRead;
      InRange(from, get[..numRead]);
      ghost var srcs, middle := Picked(from.events, get[..numRead]), to.sent;
      var go, moved;
      ghost var passes;
      go, status, moved, passes, lost := ServeBatch(from, to, config, get, numRead, put, dump, srcs, fb, fh, tb);
      SentMore(old(to.sent), middle, to.sent, AllShipped(log), Shipped(Batch(srcs, passes)), moved, to.nselects,
          config.want);
      LogMore(log, Batch(srcs, passes));
      ShortPart(Sources(log), srcs, to.eventSize);
      log := log + [Batch(srcs, passes)];
      ntransferred := ntransferred + moved;
      if !go {
        stopped := true;
        break;
      }
      NothingHeld(to, tb, tb, old(to.refused));
      status := PutBack(from, get, numRead, fb, fh);
      if status != OK {
        stopped := true;
        break;
      }
    }
    if !stopped {
      NothingHeld(from, fb, fb, old(from.refused));
      NothingHeld(to, tb, tb, old(to.refused));
    }
    SettledTells(from, astray);
    SettledTells(to, lost);
  }

  /** What `Settled` says of the calls' own counts. */
  twostate lemma SettledTells(p: Port, new lost: set<nat>)
    requires old(p.Valid()) && Settled(p, Written(old(Opened(p)), lost), old(p.refused))
    ensures p.taken + old(p.returned) == p.returned + old(p.taken) + multiset(lost)
    ensures p.refused == old(p.refused) ==> forall id: nat :: p.Owns(id) <==> old(p.Owns(id)) || id in lost
  {
  }

  /** What `Sent` says of each copy. */
  lemma SentTells(before: seq<Event>, sent: seq<Event>, n: nat, srcs: seq<Event>, nselects: nat, want: Option<u32>)
    requires n <= |srcs| && Sent(before, sent, n, srcs, nselects, want)
    ensures |sent| == |before| + n && sent[..|before|] == before
    ensures forall k :: 0 <= k < n ==>
      && sent[|before| + k].length == srcs[k].length && sent[|before| + k].priority == srcs[k].priority
      && srcs[k].length <= |srcs[k].memory| && srcs[k].length <= |sent[|before| + k].memory|
      && nselects <= |srcs[k].control| && nselects <= |sent[|before| + k].control|
    ensures forall k, i :: 0 <= k < n && 0 <= i < nselects ==>
      sent[|before| + k].control[i] == srcs[k].control[i]
    ensures forall k :: 0 <= k < n && (want.None? || srcs[k].byteorder == want.value) ==>
      sent[|before| + k].byteorder == srcs[k].byteorder
    ensures forall k, i :: 0 <= k < n && 0 <= i < srcs[k].length ==>
      want.None? || srcs[k].byteorder == want.value ==> sent[|before| + k].memory[i] == srcs[k].memory[i]
  {
    hide Copied;
    forall k | 0 <= k < n ensures Carried(srcs[k], sent[|before| + k], nselects, want) {
      assert srcs[..n][k] == srcs[k] && sent[|before|..][k] == sent[|before| + k];
      CopiedTells(srcs[k], sent[|before| + k], nselects, want);
    }
    forall k | 0 <= k < n
      ensures sent[|before| + k].length == srcs[k].length && sent[|before| + k].priority == srcs[k].priority
      ensures srcs[k].length <= |srcs[k].memory| && srcs[k].length <= |sent[|before| + k].memory|
      ensures nselects <= |srcs[k].control| && nselects <= |sent[|before| + k].control|
    {
      assert Carried(srcs[k], sent[|before| + k], nselects, want);
    }
  }

  predicate Carried(src: Event, dst: Event, nselects: nat, want: Option<u32>) {
    && dst.length == src.length <= |dst.memory| && dst.priority == src.priority && src.length <= |src.memory|
    && nselects <= |src.control| && nselects <= |dst.control|
    && (forall i :: 0 <= i < nselects ==> dst.control[i] == src.control[i])
    && (want.None? || src.byteorder == want.value ==>
          && dst.byteorder == src.byteorder
          && forall i :: 0 <= i < src.length ==> dst.memory[i] == src.memory[i])
  }

  lemma CopiedTells(src: Event, dst: Event, nselects: nat, want: Option<u32>)
    requires Copied(src, dst, nselects, want)
    ensures Carried(src, dst, nselects, want)
  {
    forall i | 0 <= i < nselects ensures dst.control[i] == src.control[i] {
      assert dst.control[..nselects][i] == src.control[..nselects][i];
    }
    if !Swaps(src.byteorder, want) {
      forall i | 0 <= i < src.length ensures dst.memory[i] == src.memory[i] {
        assert dst.memory[..dst.length][i] == src.memory[..src.length][i];
      }
    }
  }

  /** As long as no batch takes more than two passes, the events sent are copies of the events
      handed out, in their order. */
  lemma HandedInOrder(before: seq<Event>, sent: seq<Event>, n: nat, log: seq<Batch>, nselects: nat, want: Option<u32>)
    requires AllSound(log) && forall i :: 0 <= i < |log| ==> |log[i].passes| <= 2
    requires forall i :: 0 <= i < |log| - 1 ==> Complete(log[i])
    requires n <= |AllShipped(log)| && Sent(before, sent, n, AllShipped(log), nselects, want)
    ensures Sent(before, sent, n, Sources(log), nselects, want)
  {
    TwoPassesInOrder(log);
    assert AllShipped(log)[..n] == Sources(log)[..n];
  }
}

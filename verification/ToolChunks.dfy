/** EvioTool reading from a local ET system: events are gotten in chunks, delivered one by one, and
    given back chunk by chunk. */
module ToolChunks {
  import opened Words
  import opened EtPort

  // ----- what a buffer is worth -----

  datatype Verdict = Good | BadMagic | Short

  const MAGIC: u32 := 0xc0da_0100

  function EighthWord(e: Event): u32
    requires |e.memory| >= 32
  {
    var a: int, b: int, c: int, d: int := e.memory[28], e.memory[29], e.memory[30], e.memory[31];
    a + b * 0x100 + c * 0x1_0000 + d * 0x100_0000
  }

  function VerdictOf(e: Event): Verdict
    requires Port.EventOk(e)
  {
    if e.length / 4 <= 10 then Short else if EighthWord(e) != MAGIC then BadMagic else Good
  }

  /** A buffer is good if it holds at least eleven words and the eighth, lowest byte first, is 0xc0da0100. */
  lemma GoodExactly(e: Event)
    requires Port.EventOk(e)
    ensures VerdictOf(e).Good? <==>
            && e.length >= 44
            && e.memory[28] == 0x00 && e.memory[29] == 0x01 && e.memory[30] == 0xda && e.memory[31] == 0xc0
    ensures VerdictOf(e).Short? <==> e.length < 44
  {
  }

  predicate AllOk(es: seq<Event>) { forall i :: 0 <= i < |es| ==> Port.EventOk(es[i]) }

  /** The good events of a chunk from index `k` on, last one first. */
  function Readable(es: seq<Event>, k: nat): seq<Event>
    requires AllOk(es)
    decreases |es| - k
  {
    if k >= |es| then [] else Readable(es, k + 1) + if VerdictOf(es[k]).Good? then [es[k]] else []
  }

  predicate AllChunksOk(log: seq<seq<Event>>) { forall i :: 0 <= i < |log| ==> AllOk(log[i]) && log[i] != [] }

  /** What a reader that is through with these chunks has delivered. */
  function Delivered(log: seq<seq<Event>>): seq<Event>
    requires AllChunksOk(log)
  {
    if log == [] then [] else Delivered(log[..|log| - 1]) + Readable(log[|log| - 1], 0)
  }

  /** What it has given back: the chunks whose first event, the last to be delivered, is good. */
  function GivenBack(log: seq<seq<Event>>): seq<Event>
    requires AllChunksOk(log)
  {
    if log == [] then []
    else
      var es := log[|log| - 1];
      GivenBack(log[..|log| - 1]) + if VerdictOf(es[0]).Good? then es else []
  }

  function Flat(log: seq<seq<Event>>): seq<Event> {
    if log == [] then [] else Flat(log[..|log| - 1]) + log[|log| - 1]
  }

  function Reversed(es: seq<Event>): seq<Event> { if es == [] then [] else Reversed(es[1..]) + [es[0]] }

  lemma {:induction false} ReversedAt(es: seq<Event>, i: nat)
    requires i < |es|
    ensures |Reversed(es)| == |es| && Reversed(es)[i] == es[|es| - 1 - i]
  {
    if |es| > 1 {
      ReversedAt(es[1..], if i < |es| - 1 then i else 0);
    }
  }

  lemma {:induction false} ReadableReversed(es: seq<Event>, k: nat)
    requires AllOk(es) && k <= |es| && forall i :: 0 <= i < |es| ==> VerdictOf(es[i]).Good?
    ensures Readable(es, k) == Reversed(es[k..])
    decreases |es| - k
  {
    if k < |es| {
      ReadableReversed(es, k + 1);
      assert es[k..][1..] == es[k + 1..];
    }
  }

  /** With good buffers only, every event of a chunk is delivered exactly once, the last one first,
      and every chunk is given back. */
  lemma {:induction false} AllGood(log: seq<seq<Event>>)
    requires AllChunksOk(log)
    requires forall i, j :: 0 <= i < |log| && 0 <= j < |log[i]| ==> VerdictOf(log[i][j]).Good?
    ensures GivenBack(log) == Flat(log) && multiset(Delivered(log)) == multiset(Flat(log))
    ensures log != [] ==> Delivered(log) == Delivered(log[..|log| - 1]) + Reversed(log[|log| - 1])
  {
    if log != [] {
      var es := log[|log| - 1];
      AllGood(log[..|log| - 1]);
      ReadableReversed(es, 0);
      assert es[0..] == es;
      ReversedSame(es);
    }
  }

  lemma {:induction false} ReversedSame(es: seq<Event>)
    ensures multiset(Reversed(es)) == multiset(es)
  {
    if es != [] {
      ReversedSame(es[1..]);
      assert es == [es[0]] + es[1..];
    }
  }

  // ----- the account of a run -----

  /** The chunks the reader is through with. */
  function Done(log: seq<seq<Event>>, current: int): seq<seq<Event>> {
    if 0 <= current && log != [] then log[..|log| - 1] else log
  }

  /** `delivered` and `sent` since the start, in terms of the chunks gotten.  The chunk in hand is
      delivered down to `current`, inclusive when that event is the valid one. */
  ghost predicate Account(log: seq<seq<Event>>, current: int, valid: bool, delivered: seq<Event>, sent: seq<Event>) {
    && AllChunksOk(log) && (valid ==> 0 <= current)
    && (0 <= current ==> log != [] && current < |log[|log| - 1]|)
    && (valid ==> VerdictOf(log[|log| - 1][current]).Good?)
    && sent == GivenBack(Done(log, current))
    && delivered == Delivered(Done(log, current))
                    + if current < 0 then [] else Readable(log[|log| - 1], if valid then current else current + 1)
  }

  lemma AccountGot(log: seq<seq<Event>>, current: int, es: seq<Event>, delivered: seq<Event>, sent: seq<Event>)
    requires Account(log, current, false, delivered, sent) && current < 0 && AllOk(es) && es != []
    ensures Account(log + [es], |es| - 1, false, delivered, sent)
    ensures Flat(log + [es]) == Flat(log) + es
  {
    assert (log + [es])[..|log|] == log;
    assert AllChunksOk(log + [es]);
  }

  lemma AccountDelivered(log: seq<seq<Event>>, current: int, delivered: seq<Event>, sent: seq<Event>)
    requires Account(log, current, false, delivered, sent) && 0 <= current && VerdictOf(log[|log| - 1][current]).Good?
    ensures Account(log, current, true, delivered + [log[|log| - 1][current]], sent)
  {
  }

  /** Past an event that is delivered, or not good: with the chunk's first event, past the chunk. */
  lemma AccountPast(log: seq<seq<Event>>, current: int, valid: bool, delivered: seq<Event>, sent: seq<Event>)
    requires Account(log, current, valid, delivered, sent) && 0 <= current
    requires valid || !VerdictOf(log[|log| - 1][current]).Good?
    ensures Account(log, current - 1, false, delivered, if valid && current == 0 then sent + log[|log| - 1] else sent)
  {
  }

  // ----- what the attachment holds -----

  /** Besides `rest` the attachment holds exactly `out`, each once, and those are the events `es`. */
  ghost predicate Holding(p: Port, rest: set<nat>, out: seq<nat>, es: seq<Event>)
    reads p`events
  {
    && p.Valid() && NoDuplicates(out) && (forall i :: 0 <= i < |out| ==> out[i] !in rest)
    && (forall id: nat :: p.Owns(id) <==> id in rest || id in out)
    && |es| == |out| && (forall i :: 0 <= i < |out| ==> out[i] < |p.events| && es[i] == p.events[out[i]])
  }

  lemma LetGo(p: Port, rest: set<nat>, out: seq<nat>, es: seq<Event>)
    requires Holding(p, rest, out, es)
    ensures Holding(p, rest + Members(out), [], [])
  {
  }

  method GetInto(p: Port, buf: array<nat>, ghost rest: set<nat>)
      returns (status: Status, n: nat, ghost es: seq<Event>, ghost stray: set<nat>)
    requires buf.Length >= 1 && Holding(p, rest, [], [])
    modifies p, buf
    ensures p.misused == old(p.misused) && p.refused == old(p.refused) && p.sent == old(p.sent)
    ensures status == OK ==>
            1 <= n <= buf.Length && AllOk(es) && Holding(p, rest, buf[..n], es) && p.handed == old(p.handed) + es
    ensures status != OK ==> Holding(p, rest + stray, [], []) && p.handed == old(p.handed)
    ensures stray == {} <==> p.strayed == old(p.strayed)
  {
    hide Port.EventOk;
    ghost var ids;
    status, n, ids := p.EventsGet(buf, buf.Length);
    stray := if status == OK then {} else Members(ids);
    es := if status == OK then Picked(p.events, buf[..n]) else [];
    assert |ids| > 0 ==> ids[0] in Members(ids);
  }

  method GiveBack(p: Port, buf: array<nat>, n: nat, ghost rest: set<nat>, ghost es: seq<Event>) returns (status: Status)
    requires n <= buf.Length && AllOk(es) && Holding(p, rest, buf[..n], es)
    modifies p
    ensures p.misused == old(p.misused) && p.handed == old(p.handed) && p.strayed == old(p.strayed)
    ensures status == OK ==> Holding(p, rest, [], []) && p.sent == old(p.sent) + es && p.refused == old(p.refused)
    ensures status != OK ==> Holding(p, rest, buf[..n], es) && p.sent == old(p.sent) && p.refused == old(p.refused) + 1
  {
    hide Port.EventOk;
    assert p.OwnsAll(buf[..n]) && Picked(p.events, buf[..n]) == es;
    status := p.EventsPut(buf[..n]);
  }

  // ----- the reader -----

  datatype Stat = Fine | EtError(status: Status) | ReadError | BufferError

  class Reader {
    const port: Port
    const buf: array<nat>
    var numRead: nat
    var currentChunk: int
    var eventValid: bool

    // What the attachment owned before; events it can no longer give back; the chunks gotten; what was
    // delivered and what given back.  `disturbed`: an event was delivered again after a refused put, or
    // passed over by an `EndEvent` without an event.
    ghost var mine: set<nat>
    ghost var leaked: set<nat>
    ghost var log: seq<seq<Event>>
    ghost var delivered: seq<Event>
    ghost var given: seq<Event>
    ghost var disturbed: bool
    ghost const handed0: seq<Event>
    ghost const sent0: seq<Event>

    constructor (port: Port, chunkSize: nat)
      requires port.Valid() && chunkSize >= 1
      ensures Valid() && this.port == port && fresh(buf)
      ensures log == [] && delivered == given == [] && leaked == {} && !disturbed && currentChunk < 0
    {
      this.port := port;
      buf := new nat[chunkSize];
      numRead, currentChunk, eventValid := 1, -1, false;
      mine := set id | 0 <= id < |port.events| && port.events[id].owner == port.att;
      leaked, log, delivered, given, disturbed := {}, [], [], [], false;
      handed0, sent0 := port.handed, port.sent;
    }

    /** The chunk gotten and not given back, if any. */
    ghost function Outstanding(): seq<nat>
      reads this, buf
    {
      if 0 <= currentChunk && numRead <= buf.Length then buf[..numRead] else []
    }

    ghost function InHand(): seq<Event>
      reads this
    {
      if 0 <= currentChunk && log != [] then log[|log| - 1] else []
    }

    ghost predicate Valid()
      reads this, port, buf
    {
      && buf.Length >= 1 && (0 <= currentChunk ==> currentChunk < numRead <= buf.Length && log != [])
      && AllChunksOk(log) && Holding(port, mine + leaked, Outstanding(), InHand())
      && (eventValid ==> 0 <= currentChunk && VerdictOf(log[|log| - 1][currentChunk]).Good?)
      && port.handed == handed0 + Flat(log) && port.sent == sent0 + given
      && (!disturbed ==> Account(log, currentChunk, eventValid, delivered, given))
    }

    /** The last event of a chunk has been seen: the whole chunk goes back. */
    method PutChunk() returns (status: Status)
      requires Valid() && eventValid && currentChunk == 0
      modifies this`currentChunk, this`eventValid, this`given, port
      ensures Valid() && port.misused == old(port.misused) && port.strayed == old(port.strayed)
      ensures status == OK ==>
              !eventValid && currentChunk == -1 && port.refused == old(port.refused)
                  && given == old(given) + log[|log| - 1]
      ensures status != OK ==>
              eventValid && currentChunk == 0 && port.refused == old(port.refused) + 1 && given == old(given)
    {
      hide Port.EventOk, Account, Holding, AllOk, Flat, VerdictOf;
      status := GiveBack(port, buf, numRead, mine + leaked, log[|log| - 1]);
      if status == OK {
        if !disturbed {
          AccountPast(log, currentChunk, eventValid, delivered, given);
        }
        eventValid, currentChunk, given := false, -1, given + log[|log| - 1];
      }
    }

    /** Without an event to end, the next one of the chunk is passed over. */
    method PassOver()
      requires Valid() && !eventValid
      modifies this`currentChunk, this`leaked, this`disturbed
      ensures Valid() && currentChunk == old(currentChunk) - 1
      ensures disturbed == (old(disturbed) || old(currentChunk) >= 0)
    {
      hide Port.EventOk, Holding, AllChunksOk, Flat, VerdictOf, Account;
      if currentChunk >= 0 {
        disturbed := true;
        if currentChunk == 0 {
          LoseChunk();
        }
      } else {
        AccountBelow(log, currentChunk, delivered, given);
      }
      currentChunk := currentChunk - 1;
    }

    /** `EndEvent`: with the last event of a chunk, the chunk goes back. */
    method EndEvent() returns (status: Status)
      requires Valid()
      modifies this`currentChunk, this`eventValid, this`leaked, this`disturbed, this`given, port
      ensures Valid() && port.misused == old(port.misused)
      ensures disturbed == (old(disturbed) || (!old(eventValid) && old(currentChunk) >= 0))
      ensures status == OK ==> !eventValid && currentChunk == old(currentChunk) - 1 && port.refused == old(port.refused)
      ensures status != OK ==>
              eventValid && currentChunk == 0 == old(currentChunk) && old(eventValid)
                  && port.refused == old(port.refused) + 1
      ensures old(eventValid) ==> leaked == old(leaked)
      ensures given == old(given)
              + if old(eventValid) && old(currentChunk) == 0 && status == OK then log[|log| - 1] else []
      ensures port.strayed == old(port.strayed)
    {
      hide Port.EventOk, Holding, AllChunksOk, Flat, VerdictOf, Account;
      status := OK;
      if eventValid && currentChunk == 0 {
        status := PutChunk();
      } else if eventValid {
        if !disturbed {
          AccountPast(log, currentChunk, eventValid, delivered, given);
        }
        eventValid, currentChunk := false, currentChunk - 1;
      } else {
        PassOver();
      }
    }

    /** `et_events_get` into the buffer, when the last chunk is used up. */
    method GetChunk() returns (status: Status)
      requires Valid() && currentChunk < 0
      modifies this`numRead, this`currentChunk, this`leaked, this`log, port, buf
      ensures Valid() && port.misused == old(port.misused) && port.refused == old(port.refused)
      ensures status == OK ==> leaked == old(leaked) && |log| == |old(log)| + 1 && log[..|log| - 1] == old(log)
      ensures status == OK ==> currentChunk == |log[|log| - 1]| - 1 && 1 <= |log[|log| - 1]| <= buf.Length
      ensures status != OK ==> currentChunk == -1 && log == old(log)
      ensures status != OK && port.strayed == old(port.strayed) ==> leaked == old(leaked)
    {
      hide Port.EventOk, Holding, Flat, VerdictOf, Account, AllChunksOk, AllOk;
      ghost var es, stray;
      status, numRead, es, stray := GetInto(port, buf, mine + leaked);
      if status != OK {
        AccountBelow(log, currentChunk, delivered, given);
        numRead, currentChunk, leaked := 0, -1, leaked + stray;
        assert mine + leaked == mine + old(leaked) + stray;
        return;
      }
      Enter(es);
    }

    /** The chunk just read becomes the one in hand. */
    method Enter(ghost es: seq<Event>)
      requires buf.Length >= 1 && currentChunk < 0 && !eventValid && 1 <= numRead <= buf.Length
      requires AllChunksOk(log) && AllOk(es) && Holding(port, mine + leaked, buf[..numRead], es)
      requires port.handed == handed0 + Flat(log) + es && port.sent == sent0 + given
      requires !disturbed ==> Account(log, currentChunk, eventValid, delivered, given)
      modifies this`currentChunk, this`log
      ensures Valid() && log == old(log) + [es] && currentChunk == numRead - 1 == |es| - 1
    {
      hide Port.EventOk, Holding, Flat, VerdictOf, Account, AllChunksOk, AllOk;
      HoldingSize(port, mine + leaked, buf[..numRead], es);
      if !disturbed {
        AccountGot(log, currentChunk, es, delivered, given);
      }
      LogMore(log, es);
      currentChunk, log := numRead - 1, log + [es];
    }

    /** Deliver the current event of the chunk, if its buffer is good.  One with a wrong magic word is
        passed over, even when it is the last of its chunk; one that is too short stays. */
    method Inspect() returns (stat: Stat, ghost event: Option<Event>)
      requires Valid() && 0 <= currentChunk && (eventValid ==> disturbed)
      modifies this`currentChunk, this`eventValid, this`leaked, this`delivered
      ensures Valid()
      ensures var v := old(VerdictOf(log[|log| - 1][currentChunk]));
              stat == if v.Good? then Fine else if v.BadMagic? then ReadError else BufferError
      ensures var e := old(log[|log| - 1][currentChunk]);
              stat == Fine <==>
                && e.length >= 44 && |e.memory| >= 32
                && e.memory[28] == 0x00 && e.memory[29] == 0x01 && e.memory[30] == 0xda && e.memory[31] == 0xc0
      ensures stat == Fine ==>
              eventValid && currentChunk == old(currentChunk) && event == Some(log[|log| - 1][currentChunk])
      ensures stat == Fine ==> delivered == old(delivered) + [event.value]
      ensures stat != Fine ==> !eventValid && event == None && delivered == old(delivered)
      ensures stat == ReadError ==> currentChunk == old(currentChunk) - 1
      ensures stat == BufferError ==> currentChunk == old(currentChunk)
      ensures leaked == old(leaked)
              + if stat == ReadError && old(currentChunk) == 0 then Members(buf[..numRead]) else {}
    {
      hide Holding, Flat, Account;
      HoldingSize(port, mine + leaked, Outstanding(), InHand());
      GoodExactly(log[|log| - 1][currentChunk]);
      var e := port.events[buf[currentChunk]];
      if e.length / 4 > 10 {
        if EighthWord(e) != MAGIC {
          Reject();
          return ReadError, None;
        }
      } else {
        return BufferError, None;
      }
      hide AllChunksOk, Port.EventOk, VerdictOf;
      if !disturbed {
        AccountDelivered(log, currentChunk, delivered, given);
      }
      eventValid := true;
      event := Some(e);
      delivered := delivered + [e];
      stat := Fine;
    }

    method Reject()
      requires Valid() && 0 <= currentChunk && !eventValid && !VerdictOf(log[|log| - 1][currentChunk]).Good?
      modifies this`currentChunk, this`leaked
      ensures Valid() && currentChunk == old(currentChunk) - 1
      ensures leaked == old(leaked) + if old(currentChunk) == 0 then Members(buf[..numRead]) else {}
    {
      hide Port.EventOk, Holding, AllChunksOk, Flat, VerdictOf, Account;
      if !disturbed {
        AccountPast(log, currentChunk, eventValid, delivered, given);
      }
      if currentChunk == 0 {
        LoseChunk();
      }
      currentChunk := currentChunk - 1;
    }

    /** The chunk in hand will not be given back any more. */
    ghost method LoseChunk()
      requires Valid() && 0 <= currentChunk
      modifies this`leaked
      ensures leaked == old(leaked) + Members(buf[..numRead]) && Holding(port, mine + leaked, [], [])
    {
      hide Port.EventOk, Holding, AllChunksOk, Flat, VerdictOf, Account, Members;
      LetGo(port, mine + leaked, Outstanding(), InHand());
      leaked := leaked + Members(buf[..numRead]);
      assert mine + leaked == mine + old(leaked) + Members(buf[..numRead]);
    }

    /** `NextNoParse`, up to the delivery. */
    method NextNoParse() returns (stat: Stat, ghost event: Option<Event>)
      requires Valid()
      modifies this, port, buf
      ensures Valid() && port.misused == old(port.misused)
      ensures stat == Fine ==> eventValid && event.Some? && delivered == old(delivered) + [event.value]
      ensures stat != Fine ==> !eventValid && event == None && delivered == old(delivered)
      ensures disturbed == (old(disturbed) || (old(eventValid) && port.refused > old(port.refused)))
      ensures stat != ReadError && port.strayed == old(port.strayed) ==> leaked == old(leaked)
      ensures stat == Fine ==> event == Some(log[|log| - 1][currentChunk])
      ensures port.refused >= old(port.refused)
    {
      hide Port.EventOk, Holding, Flat, Account, VerdictOf, AllChunksOk;
      event := None;
      if eventValid {
        var ended := EndEvent();
        disturbed := disturbed || ended != OK;
      }
      if currentChunk < 0 {
        var status := GetChunk();
        if status != OK {
          return EtError(status), None;
        }
      }
      stat, event := Inspect();
    }

    /** `Next`: the event is parsed before it is ended; parsing copies what it needs. */
    method Next() returns (stat: Stat, ghost event: Option<Event>)
      requires Valid()
      modifies this, port, buf
      ensures Valid() && port.misused == old(port.misused)
      ensures stat == Fine ==> event.Some? && delivered == old(delivered) + [event.value]
      ensures stat == Fine ==>
                var m := event.value.memory;
                && event.value.length >= 44 && |m| >= 32
                && m[28] == 0x00 && m[29] == 0x01 && m[30] == 0xda && m[31] == 0xc0
      ensures stat != Fine ==> event == None && delivered == old(delivered)
      ensures port.refused == old(port.refused) ==> disturbed == old(disturbed) && !eventValid
      ensures stat != ReadError && port.strayed == old(port.strayed) ==> leaked == old(leaked)
    {
      hide Port.EventOk, Holding, Flat, Account, VerdictOf, AllChunksOk;
      stat, event := NextNoParse();
      if stat == Fine {
        HoldingSize(port, mine + leaked, Outstanding(), InHand());
        EventGood(log, log[|log| - 1], currentChunk);
        var ended := EndEvent();
      }
    }

    /** Between chunks of good buffers nothing is held back: every event gotten was delivered exactly once
        and given back once. */
    lemma BetweenChunks()
      requires Valid() && !disturbed && currentChunk < 0
      requires forall i, j :: 0 <= i < |log| && 0 <= j < |log[i]| ==> VerdictOf(log[i][j]).Good?
      ensures port.handed == handed0 + Flat(log) && port.sent == sent0 + Flat(log)
      ensures multiset(delivered) == multiset(Flat(log))
      ensures forall id: nat :: port.Owns(id) <==> id in mine || id in leaked
    {
      AllGood(log);
    }
  }

  lemma EventGood(log: seq<seq<Event>>, es: seq<Event>, k: nat)
    requires AllChunksOk(log) && log != [] && es == log[|log| - 1] && k < |es| && VerdictOf(es[k]).Good?
    ensures var e := es[k];
            && e.length >= 44 && |e.memory| >= 32
            && e.memory[28] == 0x00 && e.memory[29] == 0x01 && e.memory[30] == 0xda && e.memory[31] == 0xc0
  {
    GoodExactly(es[k]);
  }

  lemma AccountBelow(log: seq<seq<Event>>, current: int, delivered: seq<Event>, sent: seq<Event>)
    requires current < 0
    ensures forall c :: c < 0 ==>
            Account(log, c, false, delivered, sent) == Account(log, current, false, delivered, sent)
  {
  }

  lemma HoldingSize(p: Port, rest: set<nat>, out: seq<nat>, es: seq<Event>)
    requires Holding(p, rest, out, es)
    ensures |es| == |out| && forall i :: 0 <= i < |out| ==> out[i] < |p.events| && es[i] == p.events[out[i]]
  {
  }

  lemma LogMore(log: seq<seq<Event>>, es: seq<Event>)
    requires AllChunksOk(log) && AllOk(es) && es != []
    ensures AllChunksOk(log + [es]) && Flat(log + [es]) == Flat(log) + es
  {
    assert (log + [es])[..|log|] == log;
  }
}

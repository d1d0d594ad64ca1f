/** The cap on temporary events: every interleaving of attachments that make, put, get and dump them,
    of the conductor that recycles them, and of the clean-up after an attachment. */
module EtTemps {
  import opened Words

  // ----- the system, one atomic step at a time -----

  datatype Place = Free | Held(att: nat) | Travelling

  /** `flag` is the event's own mark as temporary, `file` whether its memory file exists.  A free
      event keeps its old mark until it is made anew. */
  datatype Event = Event(place: Place, flag: bool, file: bool)

  /** Where an attachment is inside a call: `queue` are the events still to be made, the first of them
      right now while it is `Making`.  `removed` are events whose files a dump has removed
      and which are not yet taken off the count. */
  datatype Doing =
    | Idle
    | Opening(queue: seq<nat>)
    | Making(queue: seq<nat>)
    | Dumping(evs: seq<nat>, next: nat, removed: seq<nat>)
    | Settling(removed: seq<nat>)

  datatype System = System(max: nat, ntemps: int, events: seq<Event>, doing: seq<Doing>)

  datatype Action =
    | Take(att: nat, evs: seq<nat>) | OpenNormal(att: nat) | Opened(att: nat)
    | TooMany(att: nat) | Reserve(att: nat) | Create(att: nat) | CreateFail(att: nat)
    | Dump(att: nat, evs: seq<nat>) | Skip(att: nat) | Remove(att: nat) | Refuse(att: nat)
    | ToGrandCentral(att: nat) | Settle(att: nat)
    | Put(att: nat, ev: nat) | Get(att: nat, ev: nat)
    | Recycle(ev: nat) | Crash(att: nat) | Restore(att: nat, ev: nat)

  predicate AllAt(s: System, evs: seq<nat>, place: Place) {
    forall i :: 0 <= i < |evs| ==> evs[i] < |s.events| && s.events[evs[i]].place == place
  }

  function Moved(events: seq<Event>, evs: seq<nat>, place: Place): (r: seq<Event>)
    ensures |r| == |events|
    ensures forall i :: 0 <= i < |r| ==> r[i] == if i in evs then events[i].(place := place) else events[i]
  {
    seq(|events|, i requires 0 <= i < |events| => if i in evs then events[i].(place := place) else events[i])
  }

  function Unmarked(events: seq<Event>, evs: seq<nat>): (r: seq<Event>)
    ensures |r| == |events|
    ensures forall i :: 0 <= i < |r| ==> r[i] == if i in evs then events[i].(flag := false) else events[i]
  {
    seq(|events|, i requires 0 <= i < |events| => if i in evs then events[i].(flag := false) else events[i])
  }

  function Then(s: System, att: nat, d: Doing): System
    requires att < |s.doing|
  {
    s.(doing := s.doing[att := d])
  }

  /** A temp event goes back to where events come from: its file is deleted and the count lowered. */
  function Reclaimed(s: System, ev: nat): System
    requires ev < |s.events|
  {
    if s.events[ev].flag then
      s.(events := s.events[ev := s.events[ev].(place := Free, file := false)], ntemps := s.ntemps - 1)
    else
      s.(events := s.events[ev := s.events[ev].(place := Free)])
  }

  /** The step an action makes, if it can be made here. */
  function Next(s: System, a: Action): Option<System> {
    match a
    case Recycle(ev) =>
      if ev < |s.events| && s.events[ev].place == Travelling then Some(Reclaimed(s, ev)) else None
    case _ =>
      if a.att >= |s.doing| then None else NextOf(s, a, s.doing[a.att])
  }

  function NextOf(s: System, a: Action, d: Doing): Option<System>
    requires !a.Recycle? && a.att < |s.doing| && d == s.doing[a.att]
  {
    match a
    case Take(att, evs) =>
      if d == Idle && NoDuplicates(evs) && AllAt(s, evs, Free)
      then Some(Then(s, att, Opening(evs)).(events := Moved(s.events, evs, Held(att)))) else None
    case OpenNormal(att) =>
      if d.Opening? then Some(Then(s, att, Idle).(events := Unmarked(s.events, d.queue))) else None
    case Opened(att) =>
      if d == Opening([]) then Some(Then(s, att, Idle)) else None
    case TooMany(att) =>
      if d.Opening? && d.queue != [] && s.ntemps >= s.max then Some(Then(s, att, Idle)) else None
    case Reserve(att) =>
      if d.Opening? && d.queue != [] && s.ntemps < s.max
      then Some(Then(s, att, Making(d.queue)).(ntemps := s.ntemps + 1)) else None
    case Create(att) =>
      if d.Making? && d.queue != [] && d.queue[0] < |s.events|
      then
        var ev := d.queue[0];
        Some(Then(s, att, Opening(d.queue[1..])).(events := s.events[ev := s.events[ev].(flag := true, file := true)]))
      else None
    case CreateFail(att) =>
      if d.Making? && d.queue != [] && d.queue[0] < |s.events|
      then Some(Then(s, att, Idle).(events := s.events[d.queue[0] := s.events[d.queue[0]].(file := false)])) else None
    case Dump(att, evs) =>
      if d == Idle && NoDuplicates(evs) && AllAt(s, evs, Held(att))
      then Some(Then(s, att, Dumping(evs, 0, []))) else None
    case Skip(att) =>
      if d.Dumping? && d.next < |d.evs| && d.evs[d.next] < |s.events| && !s.events[d.evs[d.next]].flag
      then Some(Then(s, att, d.(next := d.next + 1))) else None
    case Remove(att) =>
      if d.Dumping? && d.next < |d.evs| && d.evs[d.next] < |s.events| && s.events[d.evs[d.next]].flag
          && s.events[d.evs[d.next]].file
      then
        var ev := d.evs[d.next];
        var t := Then(s, att, d.(next := d.next + 1, removed := d.removed + [ev]));
        Some(t.(events := s.events[ev := s.events[ev].(file := false)]))
      else None
    case Refuse(att) =>
      if d.Dumping? then Some(Then(s, att, Idle)) else None
    case ToGrandCentral(att) =>
      if d.Dumping? && d.next == |d.evs|
      then Some(Then(s, att, Settling(d.removed)).(events := Moved(s.events, d.evs, Free))) else None
    case Settle(att) =>
      if d.Settling? then Some(Then(s, att, Idle).(ntemps := s.ntemps - |d.removed|)) else None
    case Put(att, ev) =>
      if d == Idle && ev < |s.events| && s.events[ev].place == Held(att)
      then Some(s.(events := s.events[ev := s.events[ev].(place := Travelling)])) else None
    case Get(att, ev) =>
      if d == Idle && ev < |s.events| && s.events[ev].place == Travelling
      then Some(s.(events := s.events[ev := s.events[ev].(place := Held(att))])) else None
    case Crash(att) => Some(Then(s, att, Idle))
    case Restore(att, ev) =>
      if d == Idle && ev < |s.events| && s.events[ev].place == Held(att) then Some(Reclaimed(s, ev)) else None
  }

  // ----- bookkeeping about a run; no step looks at it -----

  /** `owed` holds an event once for every raise of the count in its name not yet undone; `drift` counts the
      times the count was lowered with nothing owed; `abandoned` are events some failed call left behind
      in the hands of its attachment without making them. */
  datatype Books = Books(owed: multiset<nat>, drift: nat, abandoned: set<nat>)

  function PendingOf(d: Doing): multiset<nat> {
    match d
    case Making(queue) => if queue == [] then multiset{} else multiset{queue[0]}
    case Dumping(_, _, removed) => multiset(removed)
    case Settling(removed) => multiset(removed)
    case _ => multiset{}
  }

  function Pending(doing: seq<Doing>): multiset<nat> {
    if doing == [] then multiset{} else Pending(doing[..|doing| - 1]) + PendingOf(doing[|doing| - 1])
  }

  function Left(d: Doing): set<nat> {
    match d
    case Opening(queue) => set ev | ev in queue
    case Making(queue) => if queue == [] then {} else set ev | ev in queue[1..]
    case _ => {}
  }

  function Undone(s: System, b: Books, ev: nat): Books
    requires ev < |s.events|
  {
    var b' := b.(abandoned := b.abandoned - {ev});
    if !s.events[ev].flag then b'
    else if b.owed[ev] > Pending(s.doing)[ev] then b'.(owed := b.owed - multiset{ev})
    else b'.(drift := b.drift + 1)
  }

  function Booked(s: System, b: Books, a: Action): Books
    requires Next(s, a).Some?
  {
    match a
    case Recycle(ev) => Undone(s, b, ev)
    case Restore(_, ev) => Undone(s, b, ev)
    case Reserve(att) => b.(owed := b.owed + multiset{s.doing[att].queue[0]})
    case Settle(att) => b.(owed := b.owed - multiset(s.doing[att].removed))
    case ToGrandCentral(att) => b.(abandoned := b.abandoned - (set ev | ev in s.doing[att].evs))
    case TooMany(att) => b.(abandoned := b.abandoned + Left(s.doing[att]))
    case CreateFail(att) => b.(abandoned := b.abandoned + Left(s.doing[att]))
    case Crash(att) => b.(abandoned := b.abandoned + Left(s.doing[att]))
    case _ => b
  }

  // ----- what every step keeps -----

  /** Events a call in progress has in hand, neither made nor wholly dumped. */
  function Mentioned(d: Doing): set<nat> {
    match d
    case Opening(queue) => set ev | ev in queue
    case Making(queue) => set ev | ev in queue
    case Dumping(_, _, removed) => set ev | ev in removed
    case _ => {}
  }

  predicate Busy(s: System, ev: nat)
    requires ev < |s.events|
  {
    var place := s.events[ev].place;
    place.Held? && place.att < |s.doing| && ev in Mentioned(s.doing[place.att])
  }

  /** Whether a raise of the count must stand for the event besides those for calls in progress. */
  function Claim(s: System, abandoned: set<nat>, ev: nat): nat {
    if ev < |s.events| && (s.events[ev].file
        || (s.events[ev].flag && s.events[ev].place != Free && !Busy(s, ev) && ev !in abandoned))
    then 1 else 0
  }

  predicate Fileless(s: System, evs: seq<nat>) {
    forall i :: 0 <= i < |evs| ==> evs[i] < |s.events| && !s.events[evs[i]].file
  }

  predicate InHand(s: System, att: nat, evs: seq<nat>) { NoDuplicates(evs) && AllAt(s, evs, Held(att)) }

  predicate Consistent(s: System, att: nat, d: Doing) {
    match d
    case Opening(queue) => InHand(s, att, queue) && Fileless(s, queue)
    case Making(queue) => queue != [] && InHand(s, att, queue) && Fileless(s, queue)
    case Dumping(evs, next, removed) =>
      && InHand(s, att, evs) && next <= |evs| && Fileless(s, evs[..next])
      && NoDuplicates(removed) && forall i :: 0 <= i < |removed| ==> removed[i] in evs[..next]
    case _ => true
  }

  ghost predicate Enough(s: System, b: Books, ev: nat)
  {
    b.owed[ev] >= Pending(s.doing)[ev] + Claim(s, b.abandoned, ev)
  }

  ghost predicate Covered(s: System, b: Books) { forall ev: nat :: Enough(s, b, ev) }

  predicate Tidy(s: System) {
    && (forall ev :: 0 <= ev < |s.events| ==> (s.events[ev].file ==> s.events[ev].flag && s.events[ev].place != Free))
    && (forall att :: 0 <= att < |s.doing| ==> Consistent(s, att, s.doing[att]))
  }

  ghost predicate Invariant(s: System, b: Books) {
    Tidy(s) && Covered(s, b) && s.ntemps + b.drift == |b.owed| && s.ntemps <= s.max
  }

  lemma {:induction false} PendingSet(doing: seq<Doing>, i: nat, d: Doing, ev: nat)
    requires i < |doing|
    ensures Pending(doing[i := d])[ev] + PendingOf(doing[i])[ev] == Pending(doing)[ev] + PendingOf(d)[ev]
    ensures PendingOf(doing[i])[ev] <= Pending(doing)[ev]
    decreases |doing|
  {
    hide PendingOf;
    var n := |doing| - 1;
    var updated := doing[i := d];
    if i < n {
      PendingSet(doing[..n], i, d, ev);
      assert updated[..n] == doing[..n][i := d];
    } else {
      assert updated[..n] == doing[..n];
    }
  }

  // ----- tidiness -----

  lemma Steady(s: System, s': System, att: nat, d: Doing)
    requires Consistent(s, att, d) && |s'.events| == |s.events|
    requires forall ev :: 0 <= ev < |s.events| && s.events[ev].place == Held(att) ==> s'.events[ev] == s.events[ev]
    ensures Consistent(s', att, d)
  {
  }

  /** Events in an attachment's hand are only touched by itself. */
  lemma Untouched(s: System, a: Action, ev: nat)
    requires Tidy(s) && Next(s, a).Some? && ev < |s.events|
    requires s.events[ev].place.Held? && (a.Recycle? || a.att != s.events[ev].place.att)
    ensures |Next(s, a).value.events| == |s.events| && Next(s, a).value.events[ev] == s.events[ev]
  {
    if !a.Recycle? {
      assert Consistent(s, a.att, s.doing[a.att]);
    }
  }

  lemma DumpedFileless(s: System, att: nat)
    requires Tidy(s) && att < |s.doing| && s.doing[att].Dumping? && s.doing[att].next == |s.doing[att].evs|
    ensures Fileless(s, s.doing[att].evs)
  {
    assert Consistent(s, att, s.doing[att]);
    assert s.doing[att].evs[..s.doing[att].next] == s.doing[att].evs;
  }

  lemma EventsTidy(s: System, a: Action)
    requires Tidy(s) && Next(s, a).Some?
    ensures var s' := Next(s, a).value; |s'.events| == |s.events| && |s'.doing| == |s.doing| && s'.max == s.max
    ensures var s' := Next(s, a).value;
      forall ev :: 0 <= ev < |s.events| ==> (s'.events[ev].file ==> s'.events[ev].flag && s'.events[ev].place != Free)
  {
    if !a.Recycle? {
      assert Consistent(s, a.att, s.doing[a.att]);
      if a.ToGrandCentral? {
        DumpedFileless(s, a.att);
      }
    }
  }

  lemma ActorTidy(s: System, a: Action)
    requires Tidy(s) && Next(s, a).Some? && !a.Recycle?
    ensures Consistent(Next(s, a).value, a.att, Next(s, a).value.doing[a.att])
  {
    if a.Dump? || a.Skip? || a.Remove? {
      DumperTidy(s, a);
    } else if a.Take? || a.Reserve? || a.Create? {
      MakerTidy(s, a);
    }
  }

  lemma MakerTidy(s: System, a: Action)
    requires Tidy(s) && Next(s, a).Some? && (a.Take? || a.Reserve? || a.Create?)
    ensures Consistent(Next(s, a).value, a.att, Next(s, a).value.doing[a.att])
  {
    assert Consistent(s, a.att, s.doing[a.att]);
  }

  lemma DumperTidy(s: System, a: Action)
    requires Tidy(s) && Next(s, a).Some? && (a.Dump? || a.Skip? || a.Remove?)
    ensures Consistent(Next(s, a).value, a.att, Next(s, a).value.doing[a.att])
  {
    assert Consistent(s, a.att, s.doing[a.att]);
    if !a.Dump? {
      var d := s.doing[a.att];
      assert d.evs[..d.next + 1] == d.evs[..d.next] + [d.evs[d.next]];
    }
  }

  lemma TidyKept(s: System, a: Action)
    requires Tidy(s) && Next(s, a).Some?
    ensures Tidy(Next(s, a).value)
  {
    hide Consistent, Next;
    var s' := Next(s, a).value;
    EventsTidy(s, a);
    forall att | 0 <= att < |s'.doing| ensures Consistent(s', att, s'.doing[att]) {
      if !a.Recycle? && a.att == att {
        ActorTidy(s, a);
      } else {
        forall ev | 0 <= ev < |s.events| && s.events[ev].place == Held(att) ensures s'.events[ev] == s.events[ev] {
          Untouched(s, a, ev);
        }
        Steady(s, s', att, s.doing[att]);
        OthersIdle(s, a, att);
      }
    }
  }

  lemma OthersIdle(s: System, a: Action, att: nat)
    requires Next(s, a).Some? && att < |s.doing| && (a.Recycle? || a.att != att)
    ensures |Next(s, a).value.doing| == |s.doing| && Next(s, a).value.doing[att] == s.doing[att]
  {
  }

  // ----- the count -----

  lemma {:induction false} Once(evs: seq<nat>, ev: nat)
    requires NoDuplicates(evs)
    ensures multiset(evs)[ev] == if ev in evs then 1 else 0
    decreases |evs|
  {
    if evs != [] {
      var n := |evs| - 1;
      Once(evs[..n], ev);
      assert evs == evs[..n] + [evs[n]];
    }
  }

  /** What an attachment has in hand, seen from one event. */
  lemma InHandFacts(s: System, att: nat, ev: nat)
    requires Tidy(s) && att < |s.doing|
    ensures ev in Mentioned(s.doing[att]) ==> ev < |s.events| && s.events[ev].place == Held(att) && !s.events[ev].file
    ensures PendingOf(s.doing[att])[ev] == 0
            || (PendingOf(s.doing[att])[ev] == 1 && (ev in Mentioned(s.doing[att]) || s.doing[att].Settling?))
            || s.doing[att].Settling?
    ensures s.doing[att].Dumping? ==> PendingOf(s.doing[att])[ev] == if ev in s.doing[att].removed then 1 else 0
  {
    var d := s.doing[att];
    assert Consistent(s, att, d);
    if d.Dumping? {
      Once(d.removed, ev);
      forall i | 0 <= i < |d.removed| ensures d.removed[i] < |s.events| && s.events[d.removed[i]].place == Held(att)
          && !s.events[d.removed[i]].file {
        var k :| 0 <= k < |d.evs[..d.next]| && d.evs[..d.next][k] == d.removed[i];
        assert d.evs[k] == d.removed[i];
      }
    }
  }

  /** Of an event the actor neither holds nor takes nor gives, nothing changes. */
  lemma Busyness(s: System, s': System, att: nat, ev: nat)
    requires att < |s.doing| == |s'.doing| && s'.doing == s.doing[att := s'.doing[att]]
    requires ev < |s.events| == |s'.events| && s'.events[ev].place == s.events[ev].place
    ensures s.events[ev].place != Held(att) ==> Busy(s', ev) == Busy(s, ev)
    ensures s.events[ev].place == Held(att) ==>
            Busy(s, ev) == (ev in Mentioned(s.doing[att])) && Busy(s', ev) == (ev in Mentioned(s'.doing[att]))
  {
    hide Mentioned;
  }

  lemma Balance(s: System, b: Books, s': System, b': Books, att: nat, ev: nat)
    requires att < |s.doing| == |s'.doing| && s'.doing == s.doing[att := s'.doing[att]] && Enough(s, b, ev)
    requires b'.owed[ev] - PendingOf(s'.doing[att])[ev] - Claim(s', b'.abandoned, ev)
             >= b.owed[ev] - PendingOf(s.doing[att])[ev] - Claim(s, b.abandoned, ev)
    ensures Enough(s', b', ev)
  {
    hide Claim, PendingOf;
    PendingSet(s.doing, att, s'.doing[att], ev);
  }

  lemma UndoEnough(s: System, b: Books, ev0: nat, ev: nat)
    requires Tidy(s) && Enough(s, b, ev) && ev0 < |s.events|
    ensures Enough(Reclaimed(s, ev0), Undone(s, b, ev0), ev)
  {
    hide Pending, Consistent, Mentioned;
    if ev != ev0 && ev < |s.events| {
      assert Busy(Reclaimed(s, ev0), ev) == Busy(s, ev);
    }
  }

  lemma MoveEnough(s: System, b: Books, ev0: nat, place: Place, ev: nat)
    requires Enough(s, b, ev) && ev0 < |s.events| && s.events[ev0].place != Free && !Busy(s, ev0)
    requires place.Held? ==> place.att < |s.doing| && s.doing[place.att] == Idle
    ensures Enough(s.(events := s.events[ev0 := s.events[ev0].(place := place)]), b, ev)
  {
    hide Pending;
  }

  lemma TakeEnough(s: System, b: Books, att: nat, evs: seq<nat>, ev: nat)
    requires Tidy(s) && Enough(s, b, ev) && Next(s, Take(att, evs)).Some?
    ensures Enough(Next(s, Take(att, evs)).value, b, ev)
  {
    hide Pending, Consistent, NoDuplicates;
    var s' := Next(s, Take(att, evs)).value;
    if ev < |s.events| && ev !in evs {
      Busyness(s, s', att, ev);
    }
    Balance(s, b, s', b, att, ev);
  }

  lemma OpenEnough(s: System, b: Books, a: Action, ev: nat)
    requires Tidy(s) && Enough(s, b, ev) && Next(s, a).Some? && (a.OpenNormal? || a.Opened? || a.Dump?)
    ensures Enough(Next(s, a).value, b, ev)
  {
    hide Pending, Consistent, NoDuplicates, AllAt;
    var s' := Next(s, a).value;
    if ev < |s.events| {
      Busyness(s, s', a.att, ev);
    }
    Balance(s, b, s', b, a.att, ev);
  }

  lemma LeaveEnough(s: System, b: Books, att: nat, ev: nat)
    requires Tidy(s) && Enough(s, b, ev) && att < |s.doing|
    ensures Enough(Then(s, att, Idle), b.(abandoned := b.abandoned + Left(s.doing[att])), ev)
  {
    hide Pending, Consistent, NoDuplicates, AllAt;
    var s', b' := Then(s, att, Idle), b.(abandoned := b.abandoned + Left(s.doing[att]));
    InHandFacts(s, att, ev);
    if ev < |s.events| {
      Busyness(s, s', att, ev);
    }
    Balance(s, b, s', b', att, ev);
  }

  lemma ReserveEnough(s: System, b: Books, att: nat, ev: nat)
    requires Tidy(s) && Enough(s, b, ev) && Next(s, Reserve(att)).Some?
    ensures Enough(Next(s, Reserve(att)).value, Booked(s, b, Reserve(att)), ev)
  {
    hide Pending, Consistent, NoDuplicates, AllAt;
    var s' := Next(s, Reserve(att)).value;
    if ev < |s.events| {
      Busyness(s, s', att, ev);
    }
    Balance(s, b, s', Booked(s, b, Reserve(att)), att, ev);
  }

  lemma CreateEnough(s: System, b: Books, att: nat, ev: nat)
    requires Tidy(s) && Enough(s, b, ev) && Next(s, Create(att)).Some?
    ensures Enough(Next(s, Create(att)).value, b, ev)
  {
    hide Pending, Consistent, NoDuplicates, AllAt;
    var s', d := Next(s, Create(att)).value, s.doing[att];
    InHandFacts(s, att, ev);
    assert d.queue == [d.queue[0]] + d.queue[1..];
    if ev < |s.events| {
      Busyness(s, s', att, ev);
    }
    Balance(s, b, s', b, att, ev);
  }

  lemma RemoveEnough(s: System, b: Books, a: Action, ev: nat)
    requires Tidy(s) && Enough(s, b, ev) && Next(s, a).Some? && (a.Skip? || a.Remove?)
    ensures Enough(Next(s, a).value, b, ev)
  {
    hide Pending, Consistent, NoDuplicates, AllAt;
    var s', d := Next(s, a).value, s.doing[a.att];
    InHandFacts(s, a.att, ev);
    DumpFacts(s, a.att, d.next);
    assert multiset(d.removed + [d.evs[d.next]])[ev] == multiset(d.removed)[ev] + if ev == d.evs[d.next] then 1 else 0;
    if ev < |s.events| {
      Busyness(s, s', a.att, ev);
    }
    Balance(s, b, s', b, a.att, ev);
  }

  lemma DumpFacts(s: System, att: nat, i: nat)
    requires Tidy(s) && att < |s.doing| && s.doing[att].Dumping?
    ensures i < |s.doing[att].evs| ==>
            s.doing[att].evs[i] < |s.events| && s.events[s.doing[att].evs[i]].place == Held(att)
    ensures forall ev :: ev in s.doing[att].removed ==> ev in s.doing[att].evs
  {
    assert Consistent(s, att, s.doing[att]);
    forall ev | ev in s.doing[att].removed ensures ev in s.doing[att].evs {
      assert ev in s.doing[att].evs[..s.doing[att].next];
    }
  }

  lemma FreeEnough(s: System, b: Books, att: nat, ev: nat)
    requires Tidy(s) && Enough(s, b, ev) && Next(s, ToGrandCentral(att)).Some?
    ensures Enough(Next(s, ToGrandCentral(att)).value, Booked(s, b, ToGrandCentral(att)), ev)
  {
    hide Pending, Consistent, NoDuplicates, AllAt;
    var s', d := Next(s, ToGrandCentral(att)).value, s.doing[att];
    DumpedFileless(s, att);
    DumpFacts(s, att, 0);
    if ev < |s.events| && ev !in d.evs {
      Busyness(s, s', att, ev);
    }
    Balance(s, b, s', Booked(s, b, ToGrandCentral(att)), att, ev);
  }

  lemma SettleEnough(s: System, b: Books, att: nat, ev: nat)
    requires Tidy(s) && Enough(s, b, ev) && Next(s, Settle(att)).Some?
    ensures Enough(Next(s, Settle(att)).value, Booked(s, b, Settle(att)), ev)
  {
    hide Pending, Consistent, NoDuplicates, AllAt;
    var s' := Next(s, Settle(att)).value;
    PendingSet(s.doing, att, Idle, ev);
    if ev < |s.events| {
      Busyness(s, s', att, ev);
    }
    Balance(s, b, s', Booked(s, b, Settle(att)), att, ev);
  }

  lemma SameState(s: System, att: nat)
    requires Tidy(s) && Next(s, CreateFail(att)).Some?
    ensures Next(s, CreateFail(att)).value == Then(s, att, Idle)
  {
    var ev := s.doing[att].queue[0];
    InHandFacts(s, att, ev);
    assert s.events[ev := s.events[ev].(file := false)] == s.events;
  }

  lemma CoveredKept(s: System, b: Books, a: Action, ev: nat)
    requires Tidy(s) && Enough(s, b, ev) && Next(s, a).Some?
    ensures Enough(Next(s, a).value, Booked(s, b, a), ev)
  {
    hide Enough, Tidy, Undone, Reclaimed;
    match a
    case Recycle(ev0) => UndoEnough(s, b, ev0, ev);
    case Restore(_, ev0) => UndoEnough(s, b, ev0, ev);
    case Put(_, ev0) => MoveEnough(s, b, ev0, Travelling, ev);
    case Get(att, ev0) => MoveEnough(s, b, ev0, Held(att), ev);
    case Take(att, evs) => TakeEnough(s, b, att, evs, ev);
    case Reserve(att) => ReserveEnough(s, b, att, ev);
    case Create(att) => CreateEnough(s, b, att, ev);
    case ToGrandCentral(att) => FreeEnough(s, b, att, ev);
    case Settle(att) => SettleEnough(s, b, att, ev);
    case TooMany(att) => LeaveEnough(s, b, att, ev);
    case Crash(att) => LeaveEnough(s, b, att, ev);
    case CreateFail(att) => LeaveEnough(s, b, att, ev); SameState(s, att);
    case Refuse(att) => LeaveEnough(s, b, att, ev); assert b.abandoned + Left(s.doing[att]) == b.abandoned;
    case Skip(_) => RemoveEnough(s, b, a, ev);
    case Remove(_) => RemoveEnough(s, b, a, ev);
    case _ => OpenEnough(s, b, a, ev);
  }

  lemma CountKept(s: System, b: Books, a: Action)
    requires Invariant(s, b) && Next(s, a).Some?
    ensures Next(s, a).value.ntemps + Booked(s, b, a).drift == |Booked(s, b, a).owed|
    ensures Next(s, a).value.ntemps <= s.max == Next(s, a).value.max
  {
    hide Tidy, Pending, Claim, AllAt, NoDuplicates, PendingOf, Undone, Left;
    match a
    case Settle(att) => SettleCount(s, b, att);
    case Recycle(ev) => UndoneCount(s, b, ev);
    case Restore(_, ev) => UndoneCount(s, b, ev);
    case _ =>
  }

  lemma UndoneCount(s: System, b: Books, ev: nat)
    requires ev < |s.events|
    ensures Reclaimed(s, ev).ntemps + Undone(s, b, ev).drift - |Undone(s, b, ev).owed| == s.ntemps + b.drift - |b.owed|
  {
    hide Pending;
  }

  lemma SettleCount(s: System, b: Books, att: nat)
    requires Covered(s, b) && att < |s.doing| && s.doing[att].Settling?
    ensures |b.owed - multiset(s.doing[att].removed)| == |b.owed| - |s.doing[att].removed|
  {
    hide Pending, Claim;
    var removed: multiset<nat> := multiset(s.doing[att].removed);
    forall ev: nat ensures removed[ev] <= b.owed[ev] {
      assert Enough(s, b, ev);
      PendingSet(s.doing, att, Idle, ev);
    }
    assert removed <= b.owed;
    assert b.owed == (b.owed - removed) + removed;
  }

  lemma InvariantKept(s: System, b: Books, a: Action)
    requires Invariant(s, b) && Next(s, a).Some?
    ensures Invariant(Next(s, a).value, Booked(s, b, a))
  {
    hide Tidy, Enough, Next, Booked;
    TidyKept(s, a);
    CountKept(s, b, a);
    forall ev: nat ensures Enough(Next(s, a).value, Booked(s, b, a), ev) {
      CoveredKept(s, b, a, ev);
    }
  }

  // ----- runs -----

  function Run(s: System, actions: seq<Action>): Option<System> {
    if actions == [] then Some(s)
    else
      match Run(s, actions[..|actions| - 1])
      case None => None
      case Some(t) => Next(t, actions[|actions| - 1])
  }

  function BooksOf(s: System, actions: seq<Action>): Books
    requires Run(s, actions).Some?
  {
    if actions == [] then Books(multiset{}, 0, {})
    else
      var before := actions[..|actions| - 1];
      Booked(Run(s, before).value, BooksOf(s, before), actions[|actions| - 1])
  }

  predicate Initial(s: System) {
    && s.ntemps == 0 <= s.max
    && (forall ev :: 0 <= ev < |s.events| ==> s.events[ev] == Event(Free, false, false))
    && (forall att :: 0 <= att < |s.doing| ==> s.doing[att] == Idle)
  }

  function Files(s: System): set<nat> { set ev | 0 <= ev < |s.events| && s.events[ev].file }

  function Live(s: System): nat { |Files(s)| }

  /** The step gives no event back to the free ones that carries the mark of an earlier life and was
      left unmade by a failed call. */
  predicate Harmless(s: System, b: Books, a: Action) {
    a.Recycle? || a.Restore? ==> a.ev < |s.events| && !(s.events[a.ev].flag && a.ev in b.abandoned)
  }

  predicate Careful(s: System, actions: seq<Action>)
    requires Run(s, actions).Some?
  {
    actions == [] ||
    var before := actions[..|actions| - 1];
    Careful(s, before) && Harmless(Run(s, before).value, BooksOf(s, before), actions[|actions| - 1])
  }

  lemma {:induction false} NothingPending(doing: seq<Doing>)
    requires forall att :: 0 <= att < |doing| ==> doing[att] == Idle
    ensures Pending(doing) == multiset{}
    decreases |doing|
  {
    if doing != [] {
      NothingPending(doing[..|doing| - 1]);
    }
  }

  lemma {:induction false} RunKeeps(s: System, actions: seq<Action>)
    requires Initial(s) && Run(s, actions).Some?
    ensures Invariant(Run(s, actions).value, BooksOf(s, actions)) && Run(s, actions).value.max == s.max
    decreases |actions|
  {
    hide Next, Booked, Tidy;
    if actions == [] {
      NothingPending(s.doing);
      StartsTidy(s);
    } else {
      var before, last := actions[..|actions| - 1], actions[|actions| - 1];
      RunKeeps(s, before);
      InvariantKept(Run(s, before).value, BooksOf(s, before), last);
      CountKept(Run(s, before).value, BooksOf(s, before), last);
    }
  }

  lemma StartsTidy(s: System)
    requires Initial(s)
    ensures Tidy(s)
  {
  }

  lemma SetInside(evs: set<nat>, m: multiset<nat>)
    requires forall ev :: ev in evs ==> m[ev] >= 1
    ensures |evs| <= |m|
  {
    assert multiset(evs) <= m;
    assert m == multiset(evs) + (m - multiset(evs));
  }

  /** In every run the count is exact up to the drift, and never above the cap. */
  lemma {:induction false} CountExact(s: System, actions: seq<Action>)
    requires Initial(s) && Run(s, actions).Some?
    ensures var t, b := Run(s, actions).value, BooksOf(s, actions);
      Live(t) <= |b.owed| == t.ntemps + b.drift && t.ntemps <= s.max
  {
    hide Next, Booked, Run, BooksOf, Tidy;
    RunKeeps(s, actions);
    var t, b := Run(s, actions).value, BooksOf(s, actions);
    forall ev | ev in Files(t) ensures b.owed[ev] >= 1 {
      assert Enough(t, b, ev);
    }
    SetInside(Files(t), b.owed);
  }

  /** The count drifts only when an abandoned event with an old mark is given back. */
  lemma DriftOnly(s: System, b: Books, a: Action)
    requires Invariant(s, b) && Next(s, a).Some? && Booked(s, b, a).drift != b.drift
    ensures a.Recycle? || a.Restore?
    ensures a.ev < |s.events| && s.events[a.ev].flag && a.ev in b.abandoned
  {
    hide Tidy, Pending;
    assert Enough(s, b, a.ev);
  }

  lemma {:induction false} CarefulDriftless(s: System, actions: seq<Action>)
    requires Initial(s) && Run(s, actions).Some? && Careful(s, actions)
    ensures BooksOf(s, actions).drift == 0
    decreases |actions|
  {
    hide Next, Booked, Invariant;
    if actions != [] {
      var before, last := actions[..|actions| - 1], actions[|actions| - 1];
      CarefulDriftless(s, before);
      RunKeeps(s, before);
      if BooksOf(s, actions).drift != 0 {
        DriftOnly(Run(s, before).value, BooksOf(s, before), last);
      }
    }
  }

  /** Over all careful runs: live temp events <= the count <= the cap, and the count is never negative. */
  lemma CapHolds(s: System, actions: seq<Action>)
    requires Initial(s) && Run(s, actions).Some? && Careful(s, actions)
    ensures 0 <= Live(Run(s, actions).value) <= Run(s, actions).value.ntemps <= s.max
  {
    CountExact(s, actions);
    CarefulDriftless(s, actions);
  }

  // ----- the steps in plain numbers -----

  /** The only steps that change the count: an event about to be made raises it by one, a dump lowers it
      by the files it removed, and giving back a marked event lowers it by one. */
  lemma CountMoves(s: System, a: Action)
    requires Next(s, a).Some?
    ensures Next(s, a).value.ntemps == s.ntemps +
              match a
              case Reserve(_) => 1
              case Settle(att) => -|s.doing[att].removed|
              case Recycle(ev) => if s.events[ev].flag then -1 else 0
              case Restore(_, ev) => if s.events[ev].flag then -1 else 0
              case _ => 0
  {
  }

  /** An event is refused exactly if the count has reached the cap, and counted exactly if it has not. */
  lemma RefusedOnlyWhenFull(s: System, att: nat)
    requires att < |s.doing| && s.doing[att].Opening? && s.doing[att].queue != []
    ensures Next(s, TooMany(att)).Some? <==> s.ntemps >= s.max
    ensures Next(s, Reserve(att)).Some? <==> s.ntemps < s.max
    ensures Next(s, TooMany(att)).Some? ==> Next(s, TooMany(att)).value.events == s.events
  {
  }

  /** The only steps that make or delete a file: a successful creation, which also marks the event; the
      removal of a marked event's file in a dump; and giving back a marked event. */
  lemma FileMoves(s: System, a: Action, ev: nat)
    requires Next(s, a).Some? && Tidy(s) && ev < |s.events|
    ensures var e, e' := s.events[ev], Next(s, a).value.events[ev];
            && (e'.file && !e.file ==> a.Create? && s.doing[a.att].queue[0] == ev && e'.flag)
            && (e.file && !e'.file ==> e.flag && (a.Recycle? || a.Restore? || a.Remove?))
            && (e'.flag && !e.flag ==> a.Create?)
            && (e.flag && !e'.flag ==> a.OpenNormal? && ev in s.doing[a.att].queue)
  {
    hide Pending, NoDuplicates;
    if !a.Recycle? {
      assert Consistent(s, a.att, s.doing[a.att]);
    }
  }

  // ----- exactly when the cap holds -----

  /** Raises of the count that stand for a call in progress: an event being made, and files removed
      whose events are not yet taken off. */
  function OutOf(d: Doing): nat {
    match d
    case Making(_) => 1
    case Dumping(_, _, removed) => |removed|
    case Settling(removed) => |removed|
    case _ => 0
  }

  function InProgress(doing: seq<Doing>): nat {
    if doing == [] then 0 else InProgress(doing[..|doing| - 1]) + OutOf(doing[|doing| - 1])
  }

  /** Raises that a failed creation, a refused dump or a crash forgets. */
  function Forgets(s: System, a: Action): nat {
    if (a.CreateFail? || a.Refuse? || a.Crash?) && a.att < |s.doing| then OutOf(s.doing[a.att]) else 0
  }

  /** An event is given back that is marked as temporary and has no file. */
  predicate Undue(s: System, a: Action) {
    (a.Recycle? || a.Restore?) && a.ev < |s.events| && s.events[a.ev].flag && !s.events[a.ev].file
  }

  /** Raises forgotten in a run. */
  function Forgotten(s: System, actions: seq<Action>): nat
    requires Run(s, actions).Some?
  {
    if actions == [] then 0
    else
      var before := actions[..|actions| - 1];
      Forgotten(s, before) + Forgets(Run(s, before).value, actions[|actions| - 1])
  }

  /** Undue steps of a run. */
  function Undues(s: System, actions: seq<Action>): nat
    requires Run(s, actions).Some?
  {
    if actions == [] then 0
    else
      var before := actions[..|actions| - 1];
      Undues(s, before) + if Undue(Run(s, before).value, actions[|actions| - 1]) then 1 else 0
  }

  lemma {:induction false} InProgressSet(doing: seq<Doing>, i: nat, d: Doing)
    requires i < |doing|
    ensures InProgress(doing[i := d]) + OutOf(doing[i]) == InProgress(doing) + OutOf(d)
    decreases |doing|
  {
    hide OutOf;
    var n := |doing| - 1;
    var updated := doing[i := d];
    if i < n {
      InProgressSet(doing[..n], i, d);
      assert updated[..n] == doing[..n][i := d];
    } else {
      assert updated[..n] == doing[..n];
    }
  }

  lemma {:induction false} NoneInProgress(doing: seq<Doing>)
    requires forall att :: 0 <= att < |doing| ==> doing[att] == Idle
    ensures InProgress(doing) == 0
    decreases |doing|
  {
    if doing != [] {
      NoneInProgress(doing[..|doing| - 1]);
    }
  }

  /** Live events after the file of one event came or went. */
  lemma LiveSet(s: System, s': System, ev: nat)
    requires |s'.events| == |s.events| && ev < |s.events|
    requires forall k :: 0 <= k < |s.events| && k != ev ==> s'.events[k].file == s.events[k].file
    ensures Live(s') - (if s'.events[ev].file then 1 else 0) == Live(s) - if s.events[ev].file then 1 else 0
  {
    var others := Files(s) - {ev};
    assert Files(s) == if s.events[ev].file then others + {ev} else others;
    assert Files(s') == if s'.events[ev].file then others + {ev} else others;
  }

  lemma LiveSame(s: System, s': System)
    requires |s'.events| == |s.events|
    requires forall k :: 0 <= k < |s.events| ==> s'.events[k].file == s.events[k].file
    ensures Live(s') == Live(s)
  {
    assert Files(s') == Files(s);
  }

  /** What is counted, and what ought to be. */
  function Excess(s: System): int { s.ntemps - Live(s) - InProgress(s.doing) }

  lemma UndoneExcess(s: System, ev: nat)
    requires Tidy(s) && ev < |s.events|
    ensures Excess(Reclaimed(s, ev)) == Excess(s) - if s.events[ev].flag && !s.events[ev].file then 1 else 0
  {
    LiveSet(s, Reclaimed(s, ev), ev);
  }

  lemma FileExcess(s: System, a: Action)
    requires Tidy(s) && Next(s, a).Some? && (a.Create? || a.Remove? || a.CreateFail?)
    ensures Excess(Next(s, a).value) == Excess(s) + Forgets(s, a)
  {
    hide InProgress, Live, NoDuplicates, AllAt;
    var s', d := Next(s, a).value, s.doing[a.att];
    assert Consistent(s, a.att, d);
    LiveSet(s, s', if a.Remove? then d.evs[d.next] else d.queue[0]);
    InProgressSet(s.doing, a.att, s'.doing[a.att]);
  }

  lemma OtherExcess(s: System, a: Action)
    requires Tidy(s) && Next(s, a).Some?
    requires !a.Create? && !a.Remove? && !a.CreateFail? && !a.Recycle? && !a.Restore?
    ensures Excess(Next(s, a).value) == Excess(s) + Forgets(s, a)
  {
    hide InProgress, Live, NoDuplicates, AllAt, Tidy;
    var s' := Next(s, a).value;
    LiveSame(s, s');
    InProgressSet(s.doing, a.att, s'.doing[a.att]);
    assert s'.doing == s.doing[a.att := s'.doing[a.att]];
  }

  lemma ExcessKept(s: System, a: Action)
    requires Tidy(s) && Next(s, a).Some?
    ensures Excess(Next(s, a).value) == Excess(s) + Forgets(s, a) - if Undue(s, a) then 1 else 0
  {
    hide Excess, Tidy, Reclaimed;
    if a.Recycle? || a.Restore? {
      UndoneExcess(s, a.ev);
    } else if a.Create? || a.Remove? || a.CreateFail? {
      FileExcess(s, a);
    } else {
      OtherExcess(s, a);
    }
  }

  /** In every run, each raise of the count stands for a live temp event, for a call in progress, or
      has been forgotten, and was undone without need once for each undue step. */
  lemma {:induction false} CountBalance(s: System, actions: seq<Action>)
    requires Initial(s) && Run(s, actions).Some?
    ensures var t := Run(s, actions).value;
            && Tidy(t)
            && t.ntemps + Undues(s, actions) == Live(t) + InProgress(t.doing) + Forgotten(s, actions)
    decreases |actions|
  {
    hide Next, Tidy, InProgress, Live, Forgets, Undue;
    if actions == [] {
      StartsTidy(s);
      NoneInProgress(s.doing);
      assert Files(s) == {};
      assert Live(s) == 0 by { LiveIsFiles(s); }
    } else {
      var before, last := actions[..|actions| - 1], actions[|actions| - 1];
      CountBalance(s, before);
      TidyKept(Run(s, before).value, last);
      ExcessKept(Run(s, before).value, last);
    }
  }

  lemma LiveIsFiles(s: System)
    ensures Live(s) == |Files(s)|
  {
  }

  /** The cap, exactly, over all interleavings: live temp events <= the count <= the cap holds if and only
      if there were no more undue steps than raises forgotten or in progress.  With no call in
      progress and no raise forgotten, it holds if and only if no marked event without a file was
      given back. */
  lemma CapExactly(s: System, actions: seq<Action>)
    requires Initial(s) && Run(s, actions).Some?
    ensures var t := Run(s, actions).value;
            Live(t) <= t.ntemps <= s.max <==> Undues(s, actions) <= Forgotten(s, actions) + InProgress(t.doing)
    ensures var t := Run(s, actions).value;
            Forgotten(s, actions) + InProgress(t.doing) == 0 ==>
              (Live(t) <= t.ntemps <= s.max <==> Undues(s, actions) == 0)
  {
    hide Next, Run, Live, InProgress, Undues, Forgotten, BooksOf;
    CountBalance(s, actions);
    CountExact(s, actions);
  }

  // ----- without care -----

  lemma OneMore(s: System, actions: seq<Action>, a: Action, t: System)
    requires Run(s, actions).Some? && Next(Run(s, actions).value, a) == Some(t)
    ensures Run(s, actions + [a]) == Some(t)
  {
    assert (actions + [a])[..|actions|] == actions;
  }

  lemma TakeOne(s: System, att: nat, ev: nat)
    requires att < |s.doing| && s.doing[att] == Idle && ev < |s.events| && s.events[ev].place == Free
    ensures Next(s, Take(att, [ev])) ==
            Some(s.(doing := s.doing[att := Opening([ev])],
                events := s.events[ev := s.events[ev].(place := Held(att))]))
  {
    var evs: seq<nat> := [ev];
    assert NoDuplicates(evs) && AllAt(s, evs, Free);
    assert Moved(s.events, evs, Held(att)) == s.events[ev := s.events[ev].(place := Held(att))];
  }

  lemma DumpOne(s: System, att: nat, ev: nat)
    requires att < |s.doing| && s.doing[att] == Idle && ev < |s.events| && s.events[ev].place == Held(att)
    ensures Next(s, Dump(att, [ev])) == Some(Then(s, att, Doing.Dumping([ev], 0, [])))
  {
    var evs: seq<nat> := [ev];
    assert NoDuplicates(evs) && AllAt(s, evs, Held(att));
  }

  lemma CreateOne(s: System, att: nat, ev: nat)
    requires att < |s.doing| && s.doing[att] == Making([ev]) && ev < |s.events|
    ensures Next(s, Create(att)) ==
            Some(s.(doing := s.doing[att := Opening([])],
                events := s.events[ev := s.events[ev].(flag := true, file := true)]))
  {
    assert s.doing[att].queue[1..] == [];
  }

  lemma RemoveOne(s: System, att: nat, ev: nat)
    requires att < |s.doing| && s.doing[att] == Doing.Dumping([ev], 0, []) && ev < |s.events|
    requires s.events[ev].flag && s.events[ev].file
    ensures Next(s, Remove(att)) ==
            Some(s.(doing := s.doing[att := Doing.Dumping([ev], 1, [ev])],
                events := s.events[ev := s.events[ev].(file := false)]))
  {
    assert s.doing[att].removed + [ev] == [ev];
  }

  lemma FreeOne(s: System, att: nat, ev: nat)
    requires att < |s.doing| && s.doing[att] == Doing.Dumping([ev], 1, [ev]) && ev < |s.events|
    ensures Next(s, ToGrandCentral(att)) ==
            Some(s.(doing := s.doing[att := Settling([ev])], events := s.events[ev := s.events[ev].(place := Free)]))
  {
    var evs: seq<nat> := [ev];
    assert Moved(s.events, evs, Free) == s.events[ev := s.events[ev].(place := Free)];
  }

  lemma SettleOne(s: System, att: nat, ev: nat)
    requires att < |s.doing| && s.doing[att] == Settling([ev])
    ensures Next(s, Settle(att)) == Some(Then(s, att, Idle).(ntemps := s.ntemps - 1))
  {
  }

  /** A whole successful call for one temp event. */
  lemma MakeTemp(s0: System, before: seq<Action>, s: System, att: nat, ev: nat) returns (actions: seq<Action>)
    requires Run(s0, before) == Some(s) && att < |s.doing| && s.doing[att] == Idle && s.ntemps < s.max
    requires ev < |s.events| && s.events[ev].place == Free
    ensures Run(s0, actions) == Some(s.(ntemps := s.ntemps + 1, events := s.events[ev := Event(Held(att), true, true)]))
  {
    hide Run, Moved;
    var held, made := s.events[ev := s.events[ev].(place := Held(att))], s.events[ev := Event(Held(att), true, true)];
    var t1 := s.(doing := s.doing[att := Opening([ev])], events := held);
    TakeOne(s, att, ev);
    OneMore(s0, before, Take(att, [ev]), t1);
    var t2 := t1.(doing := s.doing[att := Making([ev])], ntemps := s.ntemps + 1);
    assert t1.doing[att := Making([ev])] == t2.doing;
    OneMore(s0, before + [Take(att, [ev])], Reserve(att), t2);
    var t3 := t2.(doing := s.doing[att := Opening([])], events := made);
    assert t2.doing[att := Opening([])] == t3.doing && held[ev := held[ev].(flag := true, file := true)] == made;
    CreateOne(t2, att, ev);
    OneMore(s0, before + [Take(att, [ev])] + [Reserve(att)], Create(att), t3);
    assert t3.doing[att := Idle] == s.doing;
    OneMore(s0, before + [Take(att, [ev])] + [Reserve(att)] + [Create(att)], Opened(att), t3.(doing := s.doing));
    actions := before + [Take(att, [ev])] + [Reserve(att)] + [Create(att)] + [Opened(att)];
  }

  /** A whole successful dump of one temp event. */
  lemma DumpTemp(s0: System, before: seq<Action>, s: System, att: nat, ev: nat) returns (actions: seq<Action>)
    requires Run(s0, before) == Some(s) && att < |s.doing| && s.doing[att] == Idle
    requires ev < |s.events| && s.events[ev] == Event(Held(att), true, true)
    ensures Run(s0, actions) == Some(s.(ntemps := s.ntemps - 1, events := s.events[ev := Event(Free, true, false)]))
  {
    hide Run, Moved, NoDuplicates, AllAt, Next;
    var evs: seq<nat> := [ev];
    var t1 := Then(s, att, Doing.Dumping(evs, 0, []));
    DumpOne(s, att, ev);
    OneMore(s0, before, Dump(att, evs), t1);
    var bare, free := s.events[ev := Event(Held(att), true, false)], s.events[ev := Event(Free, true, false)];
    var t2 := s.(doing := s.doing[att := Doing.Dumping(evs, 1, evs)], events := bare);
    assert t1.doing[att := Doing.Dumping(evs, 1, evs)] == t2.doing;
    RemoveOne(t1, att, ev);
    OneMore(s0, before + [Dump(att, evs)], Remove(att), t2);
    var t3 := s.(doing := s.doing[att := Settling(evs)], events := free);
    assert t2.doing[att := Settling(evs)] == t3.doing && bare[ev := bare[ev].(place := Free)] == free;
    FreeOne(t2, att, ev);
    OneMore(s0, before + [Dump(att, evs)] + [Remove(att)], ToGrandCentral(att), t3);
    var t4 := s.(ntemps := s.ntemps - 1, events := free);
    assert t3.doing[att := Idle] == s.doing;
    SettleOne(t3, att, ev);
    OneMore(s0, before + [Dump(att, evs)] + [Remove(att)] + [ToGrandCentral(att)], Settle(att), t4);
    actions := before + [Dump(att, evs)] + [Remove(att)] + [ToGrandCentral(att)] + [Settle(att)];
  }

  /** An event keeps its old mark when it cannot be made for want of room, and is given back. */
  lemma LeaveOne(s0: System, before: seq<Action>, s: System, att: nat, ev: nat) returns (actions: seq<Action>)
    requires Run(s0, before) == Some(s) && att < |s.doing| && s.doing[att] == Idle && s.ntemps >= s.max
    requires ev < |s.events| && s.events[ev] == Event(Free, true, false)
    ensures Run(s0, actions) == Some(s.(ntemps := s.ntemps - 1))
  {
    hide Run;
    var held := s.events[ev := Event(Held(att), true, false)];
    var t1 := s.(doing := s.doing[att := Opening([ev])], events := held);
    TakeOne(s, att, ev);
    OneMore(s0, before, Take(att, [ev]), t1);
    assert t1.doing[att := Idle] == s.doing;
    OneMore(s0, before + [Take(att, [ev])], TooMany(att), s.(events := held));
    assert held[ev := Event(Free, true, false)] == s.events;
    OneMore(s0, before + [Take(att, [ev])] + [TooMany(att)], Restore(att, ev), s.(ntemps := s.ntemps - 1));
    actions := before + [Take(att, [ev])] + [TooMany(att)] + [Restore(att, ev)];
  }

  /** With a cap of one: an event is made temporary and dumped, another one is made; the first is taken again,
      cannot be made, and goes back when its attachment leaves.  The count is lowered for it although
      nothing was counted, and one more temp event than allowed can be made. */
  lemma {:induction false} CapMissed(s: System) returns (actions: seq<Action>)
    requires Initial(s) && s.max == 1 && |s.events| == 2 && |s.doing| == 2
    ensures Run(s, actions).Some? && Live(Run(s, actions).value) > s.max
  {
    hide Next, Moved;
    var temp0, temp1, marked := Event(Held(0), true, true), Event(Held(1), true, true), Event(Free, true, false);
    var start, t := s.events, s;
    actions := MakeTemp(s, [], s, 0, 0);
    t := t.(ntemps := 1, events := start[0 := temp0]);
    actions := DumpTemp(s, actions, t, 0, 0);
    assert t.events[0 := marked] == start[0 := marked];
    t := t.(ntemps := 0, events := start[0 := marked]);
    actions := MakeTemp(s, actions, t, 1, 1);
    t := t.(ntemps := 1, events := start[0 := marked][1 := temp1]);
    actions := LeaveOne(s, actions, t, 0, 0);
    t := t.(ntemps := 0);
    actions := MakeTemp(s, actions, t, 0, 0);
    t := t.(ntemps := 1, events := t.events[0 := temp0]);
    assert Files(t) == {0, 1};
  }
}

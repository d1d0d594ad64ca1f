/** An ET system as one attachment sees it: the events it owns, and the calls that hand events out
    and take them back.  What the unseen stations and the other attachments do is left open. */
module EtPort {
  import opened Words

  datatype Status = OK | ERROR(code: int)

  /** An event's header and memory; `owner` is an attachment or ET_SYS. */
  datatype Event = Event(owner: int, length: nat, memory: seq<u8>, priority: int, byteorder: u32, control: seq<int>)

  const ET_SYS: int := -1
  const SELECT_INTS: nat := 6

  function Members(ids: seq<nat>): set<nat> { set id | id in ids }

  function Picked(events: seq<Event>, ids: seq<nat>): (es: seq<Event>)
    requires forall i :: 0 <= i < |ids| ==> ids[i] < |events|
    ensures |es| == |ids| && forall i :: 0 <= i < |ids| ==> es[i] == events[ids[i]]
  {
    seq(|ids|, i requires 0 <= i < |ids| => events[ids[i]])
  }

  class Port {
    const att: nat
    const eventSize: nat
    const nselects: nat
    var events: seq<Event>

    // What went over the counter: events handed out (also by calls that then failed), events handed
    // to a put or dump call, those handed to a dump call alone, and the events of the put calls that
    // succeeded.
    ghost var taken: multiset<nat>
    ghost var returned: multiset<nat>
    ghost var dumped: multiset<nat>
    ghost var sent: seq<Event>
    // What get calls delivered, as it was then.
    ghost var handed: seq<Event>
    // How many events calls took and then failed without returning them; how many puts and dumps
    // were refused, and how many had to be.
    ghost var strayed: nat
    ghost var refused: nat
    ghost var misused: nat

    constructor (att: nat, eventSize: nat, nselects: nat, events: seq<Event>)
      requires nselects <= SELECT_INTS && forall i :: 0 <= i < |events| ==> EventOk(events[i])
      ensures Valid() && this.att == att && this.events == events
      ensures taken == returned == dumped == multiset{} && sent == handed == [] && strayed == refused == misused == 0
    {
      this.att, this.eventSize, this.nselects, this.events := att, eventSize, nselects, events;
      taken, returned, dumped, sent, handed := multiset{}, multiset{}, multiset{}, [], [];
      strayed, refused, misused := 0, 0, 0;
    }

    /** Events in the system hold no more data than memory: a put checks it. */
    static predicate EventOk(e: Event) { e.length <= |e.memory| && |e.control| == SELECT_INTS }

    ghost predicate Valid()
      reads this`events
    {
      && nselects <= SELECT_INTS
      && (forall i :: 0 <= i < |events| ==> |events[i].control| == SELECT_INTS)
      && (forall i :: 0 <= i < |events| && events[i].owner != att ==> EventOk(events[i]))
    }

    ghost predicate Owns(id: nat)
      reads this`events
    {
      id < |events| && events[id].owner == att
    }

    ghost predicate OwnsAll(ids: seq<nat>)
      reads this`events
    {
      forall i :: 0 <= i < |ids| ==> Owns(ids[i])
    }

    /** Others are free to change whatever this attachment does not own. */
    twostate predicate Steady()
      reads this`events
    {
      && Valid() && |events| == |old(events)|
      && forall id: nat :: id < |events| && old(Owns(id)) && Owns(id) ==> events[id] == old(events[id])
    }

    /** Exactly the events `ids` have come to the attachment, its others are untouched. */
    twostate predicate Gained(ids: seq<nat>)
      reads this
    {
      && Steady() && NoDuplicates(ids) && OwnsAll(ids)
      && (forall i :: 0 <= i < |ids| ==> !old(Owns(ids[i])))
      && (forall id: nat :: old(Owns(id)) ==> Owns(id))
      && (forall id: nat :: Owns(id) ==> old(Owns(id)) || id in ids)
      && taken == old(taken) + multiset(ids) && returned == old(returned) && dumped == old(dumped) && sent == old(sent)
      && refused == old(refused) && misused == old(misused)
    }

    /** A free event of the system, if the attachment can get one. */
    function FirstFree(from: nat): (r: Option<nat>)
      reads this`events
      ensures r.Some? ==> from <= r.value < |events| && events[r.value].owner == ET_SYS
      decreases |events| - from
    {
      if from >= |events| then None
      else if events[from].owner == ET_SYS then Some(from)
      else FirstFree(from + 1)
    }

    /** `et_station_nread`: up to `num` events, at least one.  Which ones is the station's choice. */
    method StationRead(num: nat) returns (status: Status, ids: seq<nat>)
      requires Valid() && num >= 1
      modifies this
      ensures Gained(ids) && strayed == old(strayed) && handed == old(handed) && |ids| <= num && |ids| <= |events|
      ensures forall i :: 0 <= i < |ids| ==> EventOk(events[ids[i]])
      ensures status == OK ==> |ids| >= 1
      ensures status != OK ==> ids == []
    {
      var quit: bool := *;
      var free := FirstFree(0);
      if quit || free == None {
        return ERROR(-1), [];
      }
      events := events[free.value := events[free.value].(owner := att)];
      taken := taken + multiset{free.value};
      ids := [free.value];
      assert multiset(ids) == multiset{free.value};
      status := OK;
    }

    /** `et_events_get`.  It can fail after the read, when a temp event's memory cannot be attached. */
    method EventsGet(arr: array<nat>, num: nat) returns (status: Status, n: nat, ghost ids: seq<nat>)
      requires Valid() && num >= 1 && (num <= arr.Length || |events| <= arr.Length)
      modifies this, arr
      ensures Gained(ids) && strayed == old(strayed) + if status == OK then 0 else |ids|
      ensures handed == old(handed) + if status == OK then Contents(ids) else []
      ensures status == OK ==> 1 <= n <= num && n <= arr.Length && ids == arr[..n]
      ensures status == OK ==> forall i :: 0 <= i < n ==> EventOk(events[arr[i]])
    {
      var got;
      status, got := StationRead(num);
      ids, n := got, 0;
      if status != OK {
        return;
      }
      var attached: bool := *;
      if !attached {
        strayed := strayed + |got|;
        return ERROR(-1), 0, ids;
      }
      n, handed := |got|, handed + Contents(got);
      forall i | 0 <= i < |got| {
        arr[i] := got[i];
      }
      assert arr[..n] == got;
    }

    /** A new event of at least `size` bytes: initialized, in its own memory or a temp file. */
    function Fresh(e: Event, size: nat): (r: Event)
      ensures r.owner == e.owner && EventOk(r) && r.length == size <= |r.memory|
    {
      Event(e.owner, size, Fill(if size > eventSize then size else eventSize, 0), 0, 0, Fill(SELECT_INTS, 0))
    }

    /** `et_event_make` and initialization, on the events just read. */
    method InitEvents(ids: seq<nat>, size: nat) returns (ok: bool)
      requires Valid() && NoDuplicates(ids) && OwnsAll(ids)
      modifies `events
      ensures Valid() && |events| == |old(events)|
      ensures forall id: nat :: Owns(id) <==> old(Owns(id))
      ensures forall id: nat :: id < |events| && id !in ids ==> events[id] == old(events[id])
      ensures ok ==> forall i :: 0 <= i < |ids| ==> EventOk(events[ids[i]]) && |events[ids[i]].memory| >= size
      ensures size <= eventSize ==> ok
    {
      for k := 0 to |ids|
        invariant Valid() && |events| == |old(events)|
        invariant forall id: nat :: Owns(id) <==> old(Owns(id))
        invariant forall id: nat :: id < |events| && id !in ids[..k] ==> events[id] == old(events[id])
        invariant forall i :: 0 <= i < k ==> EventOk(events[ids[i]]) && |events[ids[i]].memory| >= size
      {
        assert Owns(ids[k]);
        var made: bool := *;
        if size > eventSize && !made {
          return false;
        }
        events := events[ids[k] := Fresh(events[ids[k]], size)];
      }
      assert ids[..|ids|] == ids;
      ok := true;
    }

    /** `et_events_new`.  Temp events are made one by one behind the read; if that fails the caller
        learns of none of the events read.  Only sizes above the system's own need it. */
    method EventsNew(arr: array<nat>, size: nat, num: nat) returns (status: Status, n: nat, ghost ids: seq<nat>)
      requires Valid() && 1 <= num <= arr.Length
      modifies this, arr
      ensures Gained(ids) && handed == old(handed) && strayed == old(strayed) + if status == OK then 0 else |ids|
      ensures status == OK ==> 1 <= n <= num && ids == arr[..n]
      ensures status == OK ==> forall i :: 0 <= i < n ==> EventOk(events[arr[i]]) && |events[arr[i]].memory| >= size
      ensures status != OK && size <= eventSize ==> ids == []
    {
      var got;
      status, got := StationRead(num);
      ids, n := got, 0;
      if status != OK {
        return;
      }
      forall i | 0 <= i < |got| {
        arr[i] := got[i];
      }
      assert arr[..|got|] == got;
      var ok := InitEvents(got, size);
      if !ok {
        strayed := strayed + |got|;
        return ERROR(-1), 0, ids;
      }
      n := |got|;
    }

    /** `et_event_new` into `arr[at]`.  The slot is overwritten by the read, so a failure after it
        leaves another event there than before. */
    method EventNew(arr: array<nat>, at: nat, size: nat) returns (status: Status, ghost ids: seq<nat>)
      requires Valid() && at < arr.Length
      modifies this, arr
      ensures Gained(ids) && |ids| <= 1 && handed == old(handed)
              && strayed == old(strayed) + if status == OK then 0 else |ids|
      ensures arr[..] == if ids == [] then old(arr[..]) else old(arr[..])[at := ids[0]]
      ensures status == OK ==> ids != [] && EventOk(events[ids[0]]) && |events[ids[0]].memory| >= size
      ensures status != OK && size <= eventSize ==> ids == []
    {
      var got;
      status, got := StationRead(1);
      ids := got;
      if status != OK {
        return;
      }
      arr[at] := got[0];
      var ok := InitEvents(got, size);
      if !ok {
        strayed := strayed + 1;
        status := ERROR(-1);
      }
    }

    ghost predicate Fits(ids: seq<nat>)
      reads this`events
      requires OwnsAll(ids)
    {
      forall i :: 0 <= i < |ids| ==> EventOk(events[ids[i]])
    }

    ghost function Contents(ids: seq<nat>): (es: seq<Event>)
      reads this`events
      requires OwnsAll(ids)
      ensures |es| == |ids|
    {
      Picked(events, ids)
    }

    /** Exactly the events `ids` have left the attachment. */
    twostate predicate Gave(ids: seq<nat>)
      reads this`events
    {
      Steady() && forall id: nat :: Owns(id) <==> old(Owns(id)) && id !in ids
    }

    /** The attachment still owns what it owned. */
    twostate predicate Refused()
      reads this
    {
      Steady() && refused == old(refused) + 1 && forall id: nat :: Owns(id) <==> old(Owns(id))
    }

    /** The loop that looks at every event before any is touched. */
    method Check(ids: seq<nat>, lengths: bool) returns (proper: bool)
      ensures proper <==> OwnsAll(ids) && (lengths ==> Fits(ids))
    {
      for i := 0 to |ids|
        invariant forall k :: 0 <= k < i ==> Owns(ids[k]) && (lengths ==> EventOk(events[ids[k]]))
      {
        if ids[i] >= |events| || events[ids[i]].owner != att {
          return false;
        }
        if lengths && !EventOk(events[ids[i]]) {
          return false;
        }
      }
      proper := true;
    }

    twostate lemma Untouched()
      requires old(Valid()) && events == old(events)
      ensures Steady() && forall id: nat :: Owns(id) <==> old(Owns(id))
      ensures Gave([]) && old(OwnsAll([])) && old(Contents([])) == []
    {
    }

    /** Improper events are refused; so may others be, by the station or the connection. */
    method Screen(ids: seq<nat>, lengths: bool) returns (accepted: bool)
      modifies `refused
      ensures accepted ==> OwnsAll(ids) && (lengths ==> Fits(ids)) && refused == old(refused)
      ensures !accepted ==> refused == old(refused) + 1
    {
      var proper := Check(ids, lengths);
      var passed: bool := *;
      accepted := proper && passed;
      if !accepted {
        refused := refused + 1;
      }
    }

    /** `et_events_put`: all or nothing. */
    method EventsPut(ids: seq<nat>) returns (status: Status)
      requires Valid()
      modifies this
      ensures taken == old(taken) && returned == old(returned) + multiset(ids) && dumped == old(dumped)
      ensures strayed == old(strayed) && handed == old(handed)
      ensures misused == old(misused) + if old(OwnsAll(ids)) && old(Fits(ids)) && NoDuplicates(ids) then 0 else 1
      ensures status == OK ==> Gave(ids) && refused == old(refused)
                               && old(OwnsAll(ids)) && sent == old(sent) + old(Contents(ids))
      ensures status == OK ==> forall i :: 0 <= i < |ids| ==> ids[i] < |events| && events[ids[i]].owner == -1
      ensures status != OK ==> Refused() && sent == old(sent)
      ensures ids == [] ==> status == OK
    {
      hide EventOk, NoDuplicates, Picked, Fits, Contents, OwnsAll, Valid, Owns;
      returned := returned + multiset(ids);
      misused := misused + if OwnsAll(ids) && Fits(ids) && NoDuplicates(ids) then 0 else 1;
      ghost var all := OwnsAll(ids);
      ghost var contents := if all then Contents(ids) else [];
      status := GiveBack(ids, true);
      if status == OK {
        sent := sent + contents;
      }
    }

    /** What a put and a dump have in common. */
    method GiveBack(ids: seq<nat>, lengths: bool) returns (status: Status)
      requires Valid()
      modifies `events, `refused
      ensures status == OK ==> Gave(ids) && refused == old(refused) && old(OwnsAll(ids))
      ensures status == OK ==> forall i :: 0 <= i < |ids| ==> ids[i] < |events| && events[ids[i]].owner == -1
      ensures status != OK ==> Refused()
      ensures ids == [] ==> status == OK
    {
      hide EventOk, Picked, Fits, Contents, OwnsAll, Valid, Owns;
      Untouched();
      if ids == [] {
        return OK;
      }
      var accepted := Screen(ids, lengths);
      Untouched();
      if !accepted {
        return ERROR(-1);
      }
      ToSystem(ids);
      status := OK;
    }

    /** Ownership passes to the system. */
    method ToSystem(ids: seq<nat>)
      requires Valid() && OwnsAll(ids)
      modifies `events
      ensures Gave(ids)
      ensures forall i :: 0 <= i < |ids| ==> ids[i] < |events| && events[ids[i]].owner == -1
    {
      for k := 0 to |ids|
        invariant Valid() && |events| == |old(events)|
        invariant forall id: nat :: id < |events| && id !in ids[..k] ==> events[id] == old(events[id])
        invariant forall id: nat :: id < |events| && id in ids[..k] ==> events[id].owner == ET_SYS
      {
        assert Owns(ids[k]) || ids[k] in ids[..k];
        events := events[ids[k] := events[ids[k]].(owner := ET_SYS, length := 0)];
      }
      assert ids[..|ids|] == ids;
    }

    /** `et_events_dump`: all or nothing, whatever the length fields say. */
    method EventsDump(ids: seq<nat>) returns (status: Status)
      requires Valid()
      modifies this
      ensures taken == old(taken) && returned == old(returned) + multiset(ids) && dumped == old(dumped) + multiset(ids)
      ensures strayed == old(strayed) && sent == old(sent) && handed == old(handed)
      ensures misused == old(misused) + if old(OwnsAll(ids)) && NoDuplicates(ids) then 0 else 1
      ensures status == OK ==> Gave(ids) && refused == old(refused) && old(OwnsAll(ids))
      ensures status == OK ==> forall i :: 0 <= i < |ids| ==> ids[i] < |events| && events[ids[i]].owner == -1
      ensures status != OK ==> Refused()
      ensures ids == [] ==> status == OK
    {
      hide EventOk, NoDuplicates, Picked, OwnsAll, Valid, Owns;
      returned, dumped := returned + multiset(ids), dumped + multiset(ids);
      misused := misused + if OwnsAll(ids) && NoDuplicates(ids) then 0 else 1;
      status := GiveBack(ids, false);
    }
  }
}

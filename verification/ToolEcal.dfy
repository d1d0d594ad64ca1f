/** One kind of event in full: a calorimeter crate between two leaves of words, as the HPS reader books them. */
module ToolEcal {
  import opened Words
  import opened EvioTree
  import RoundTrip = EvioRoundTrip
  import opened ToolFill
  import opened ToolRouting
  import opened ToolDelivery
  import ToolTypes
  import Fadc

  /** A bank for crates 37 and 39 with a leaf for FADC data, and a leaf of words; both have been filled
      before. */
  function Reader(old1: seq<Item>, old2: seq<Item>, thisTag: u16, thisNum: u8): BankV {
    BankV([128, 17], 0, thisTag, thisNum, [LeafV(5, 0, old1)],
          [BankV([37, 39], 0, 39, 1, [LeafV(57601, 0, old2)], [])])
  }

  function Event(tag: u16, first: seq<u32>, crate: u16, fadc: Payload, second: seq<u32>): Node {
    Container(tag, 1, Bank, [
      Leaf(5, 2, Words32(UInt32, first)),
      Container(crate, 3, Bank, [Leaf(57601, 4, fadc)]),
      Leaf(7, 0, Words32(UInt32, second)),
      Leaf(5, 0, Words32(Int32, second))])
  }

  /** After such an event the leaf of words holds the first and the second words, each once and in order, and
      nothing of what was there before or stood under another tag; and the FADC leaf holds the entries of
      its slot records, with the number of the crate. */
  lemma {:induction false} EcalEvent(tag: u16, first: seq<u32>, crate: u16, fadc: Payload, second: seq<u32>,
                                     post: seq<u32>, slots: seq<Fadc.Slot>, filler: seq<u8>, old1: seq<Item>,
                                     old2: seq<Item>, thisTag: u16, thisNum: u8)
    requires tag / 128 % 2 == 1 && crate in {37, 39} && fadc.Composite?
    requires Fadc.SlotsFit(slots, 57601) && |filler| <= 3
    requires |Fadc.Encode(slots, 57601) + filler| % 4 == 0 && fadc.data == PackBytes(Fadc.Encode(slots, 57601) + filler)
    requires Writable(Event(tag, first, crate, fadc, second), Bank)
    requires Faithful(Event(tag, first, crate, fadc, second), Bank)
    ensures var w := Ser(Event(tag, first, crate, fadc, second), Bank) + post;
            var r := FillEvent(w, [128, 17], Config(false, 1, 10), Clear(Reader(old1, old2, thisTag, thisNum)));
            && r.Ok? && r.value.0 == Taken && |r.value.1.leafs| == 1 && |r.value.1.banks| == 1
            && |r.value.1.banks[0].leafs| == 1
            && (var data := r.value.1.leafs[0].data;
                && |data| == |first| + |second|
                && (forall i :: 0 <= i < |first| ==> data[i] == Word32(first[i]))
                && (forall i :: 0 <= i < |second| ==> data[|first| + i] == Word32(second[i])))
            && (var data, entries := r.value.1.banks[0].leafs[0].data, Fadc.DecodedSlots(slots, crate);
                |data| == |entries| && forall i :: 0 <= i < |entries| ==> data[i] == Pulse(entries[i]))
  {
    hide FillEvent, HoldsOnly, AllClear, Collected, Deliveries, TreeItems, TreeVerdict, Fadc.Encode, Fadc.DecodedSlots;
    hide PackBytes, Ser, Writable, Faithful, Clear;
    var cfg, b := Config(false, 1, 10), Reader(old1, old2, thisTag, thisNum);
    var t := Event(tag, first, crate, fadc, second);
    FadcSize(tag, first, crate, fadc, second);
    ToolTypes.CompositeIsClear(fadc, slots, filler, 57601, crate);
    Routes(tag, first, crate, fadc, second, b);
    TakenByTag(t, b);
    WrittenEventDelivered(t, post, false, [128, 17], cfg, b);
    var ds := Deliveries(t, 0, cfg, b, tag);
    Brought(first, TreeItems(fadc, 57601, crate), second, ds);
    var v := FillEvent(Ser(t, Bank) + post, [128, 17], cfg, Clear(b)).value.1;
    HoldsTells(v, b, ds, Place([], 0));
    HoldsTells(v, b, ds, Place([0], 0));
  }

  lemma FadcSize(tag: u16, first: seq<u32>, crate: u16, fadc: Payload, second: seq<u32>)
    requires Writable(Event(tag, first, crate, fadc, second), Bank)
    ensures PayloadLen(fadc) < MAX_WORDS
  {
    hide PayloadLen;
    var kids := Event(tag, first, crate, fadc, second).kids;
    assert WritableKids(kids[1..], Bank);
    assert Writable(kids[1], Bank);
    assert WritableKids(kids[1].kids, Bank);
    assert Writable(kids[1].kids[0], Bank);
  }

  lemma TakenByTag(t: Node, b: BankV)
    requires t.Container? && t.ctype == Bank && t.tag / 128 % 2 == 1 && b.tags == [128, 17]
    ensures TreeVerdict(t, [128, 17], Config(false, 1, 10), b.tags) == Taken
  {
    And128(t.tag);
    var masks: seq<u16> := [128, 17];
    assert And(t.tag, masks[0]) == b.tags[0];
  }

  lemma Routes(tag: u16, first: seq<u32>, crate: u16, fadc: Payload, second: seq<u32>, b: BankV)
    requires crate in {37, 39} && |b.leafs| == 1 && b.leafs[0].tag == 5 && b.leafs[0].num == 0
    requires |b.banks| == 1 && b.banks[0].tags == [37, 39] && b.banks[0].num == 0
    requires |b.banks[0].leafs| == 1 && b.banks[0].leafs[0].tag == 57601 && b.banks[0].leafs[0].num == 0
    ensures Deliveries(Event(tag, first, crate, fadc, second), 0, Config(false, 1, 10), b, tag) ==
            [Drop(Place([], 0), Items32(first))] + [Drop(Place([0], 0), TreeItems(fadc, 57601, crate))]
            + [Drop(Place([], 0), Items32(second))]
  {
    hide TreeItems;
    var cfg := Config(false, 1, 10);
    var kids := Event(tag, first, crate, fadc, second).kids;
    var k0, k1, k2, k3 := kids[0], kids[1], kids[2], kids[3];
    assert kids[1..] == [k1, k2, k3] && [k1, k2, k3][1..] == [k2, k3] && [k2, k3][1..] == [k3] && [k3][1..] == [];
    PlainIsClear(Words32(UInt32, first), 5, tag);
    PlainIsClear(Words32(Int32, second), 5, tag);
    var inner := k1.kids;
    assert inner[1..] == [];
    assert AllDeliveries(inner, 2, cfg, b.banks[0], crate) == [Drop(Place([], 0), TreeItems(fadc, 57601, crate))] + [];
    var drop := Drop(Place([], 0), TreeItems(fadc, 57601, crate));
    assert AllDeliveries(inner, 2, cfg, b.banks[0], crate) == [drop];
    assert Under(0, [drop]) == [Drop(Place([0] + [], 0), drop.items)] + Under(0, [drop][1..]);
    assert [0] + [] == [0];
    assert Deliveries(k0, 1, cfg, b, tag) == [Drop(Place([], 0), Items32(first))];
    assert Deliveries(k1, 1, cfg, b, tag) == [Drop(Place([0], 0), drop.items)];
    assert Deliveries(k2, 1, cfg, b, tag) == [];
    assert Deliveries(k3, 1, cfg, b, tag) == [Drop(Place([], 0), Items32(second))];
    assert AllDeliveries([k3], 1, cfg, b, tag) == [Drop(Place([], 0), Items32(second))] + [];
    assert AllDeliveries([k2, k3], 1, cfg, b, tag) == [] + AllDeliveries([k3], 1, cfg, b, tag);
    assert AllDeliveries([k1, k2, k3], 1, cfg, b, tag)
           == [Drop(Place([0], 0), drop.items)] + AllDeliveries([k2, k3], 1, cfg, b, tag);
    assert AllDeliveries(kids, 1, cfg, b, tag)
           == [Drop(Place([], 0), Items32(first))] + AllDeliveries([k1, k2, k3], 1, cfg, b, tag);
    assert Deliveries(Event(tag, first, crate, fadc, second), 0, cfg, b, tag) == AllDeliveries(kids, 1, cfg, b, tag);
  }

  lemma Brought(first: seq<u32>, entries: seq<Item>, second: seq<u32>, ds: seq<Drop>)
    requires ds == [Drop(Place([], 0), Items32(first))] + [Drop(Place([0], 0), entries)]
                   + [Drop(Place([], 0), Items32(second))]
    requires Unclear !in entries
    ensures AllClear(ds) && Unclear !in Collected(ds, Place([], 0)) && Unclear !in Collected(ds, Place([0], 0))
    ensures Collected(ds, Place([], 0)) == Items32(first) + Items32(second) && Collected(ds, Place([0], 0)) == entries
  {
    var here, there := Place([], 0), Place([0], 0);
    var a, c, d := Drop(here, Items32(first)), Drop(there, entries), Drop(here, Items32(second));
    hide Collected;
    assert Collected(ds, here) == Items32(first) + [] + Items32(second) by {
      CollectedAppend([a] + [c], [d], here);
      CollectedAppend([a], [c], here);
      CollectedOne(a, here);
      CollectedOne(c, here);
      CollectedOne(d, here);
    }
    assert Collected(ds, there) == [] + entries + [] by {
      CollectedAppend([a] + [c], [d], there);
      CollectedAppend([a], [c], there);
      CollectedOne(a, there);
      CollectedOne(c, there);
      CollectedOne(d, there);
    }
  }

  lemma CollectedOne(d: Drop, at: Place)
    ensures Collected([d], at) == if d.place == at then d.items else []
  {
    assert [d][1..] == [];
  }
}

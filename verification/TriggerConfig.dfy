/** The FADC250 part of the trigger configuration: settings pushed eagerly to all slots, and what the
    lines of the file mean. */
module TriggerConfig {
  import opened Words

  // ----- the lines, split into token and value -----

  datatype CrateName = Hps1 | Hps2 | End | Unknown

  datatype Param = NSB | NSA | NPEAK | W_OFFSET | W_WIDTH

  datatype Line =
    | CRATE(name: CrateName)
    | SLOT_ALL
    | SLOT(number: int)
    | MODE(mode: int)
    | SET(param: Param, value: int)
    | TET(threshold: int)
    | CH_TET(channel: nat, threshold: int)
    | ALLCH_GAIN(values: seq<real>)
    | ALLCH_PED(values: seq<real>)
    | OTHER

  const CHANNELS: nat := 16

  predicate LineOk(l: Line) { l.CH_TET? ==> l.channel < CHANNELS }

  // ----- the configuration -----

  datatype Slot = Slot(nsb: int, nsa: int, npeak: int, wOffset: int, window: int,
                       threshold: seq<int>, pedestal: seq<real>, gain: seq<real>)

  datatype Crate = Crate(mode: int, allSlots: Slot, slots: map<int, Slot>)

  function Blank(): (s: Slot)
    ensures SlotOk(s) && forall k :: Get(s, k) == Zero(k)
  {
    Slot(0, 0, 0, 0, 0, Fill(CHANNELS, 0), Fill(CHANNELS, 0.0), Fill(CHANNELS, 0.0))
  }

  function BlankCrate(): Crate { Crate(0, Blank(), map[]) }

  /** One thing a slot holds, and what it may be. */
  datatype Key = Of(param: Param) | Threshold(channel: nat) | Pedestals | Gains

  datatype Value = Number(number: int) | Numbers(numbers: seq<real>)

  function Zero(k: Key): Value {
    if k.Pedestals? || k.Gains? then Numbers(Fill(CHANNELS, 0.0)) else Number(0)
  }

  predicate SlotOk(s: Slot) { |s.threshold| == CHANNELS }

  predicate CratesOk(crates: seq<Crate>) {
    forall c :: 0 <= c < |crates| ==> SlotOk(crates[c].allSlots) && forall n :: n in crates[c].slots ==>
          SlotOk(crates[c].slots[n])
  }

  function Get(s: Slot, k: Key): Value {
    match k
    case Of(NSB) => Number(s.nsb)
    case Of(NSA) => Number(s.nsa)
    case Of(NPEAK) => Number(s.npeak)
    case Of(W_OFFSET) => Number(s.wOffset)
    case Of(W_WIDTH) => Number(s.window)
    case Threshold(ch) => Number(if ch < |s.threshold| then s.threshold[ch] else 0)
    case Pedestals => Numbers(s.pedestal)
    case Gains => Numbers(s.gain)
  }

  function With(s: Slot, p: Param, v: int): Slot {
    match p
    case NSB => s.(nsb := v)
    case NSA => s.(nsa := v)
    case NPEAK => s.(npeak := v)
    case W_OFFSET => s.(wOffset := v)
    case W_WIDTH => s.(window := v)
  }

  /** What a setting line makes of one slot. */
  function Apply(l: Line, s: Slot): (r: Slot)
    requires LineOk(l) && SlotOk(s)
    ensures SlotOk(r)
  {
    match l
    case SET(p, v) => With(s, p, v)
    case TET(t) => s.(threshold := Fill(CHANNELS, t))
    case CH_TET(ch, t) => s.(threshold := s.threshold[ch := t])
    case ALLCH_GAIN(values) => s.(gain := values)
    case ALLCH_PED(values) => s.(pedestal := values)
    case _ => s
  }

  // ----- what the lines mean -----

  /** The crate (0 for none) and the slot (0 for all) the next line is about. */
  datatype Context = Context(crate: nat, slot: int)

  function Follow(ctx: Context, l: Line): Context {
    match l
    case CRATE(Hps1) => ctx.(crate := 1)
    case CRATE(Hps2) => ctx.(crate := 2)
    case CRATE(End) => ctx.(crate := 0)
    case SLOT_ALL => if ctx.crate != 0 then ctx.(slot := 0) else ctx
    case SLOT(n) => if ctx.crate != 0 then ctx.(slot := n) else ctx
    case _ => ctx
  }

  function After(lines: seq<Line>): Context {
    if lines == [] then Context(0, 0) else Follow(After(lines[..|lines| - 1]), lines[|lines| - 1])
  }

  predicate ForOneSlot(l: Line) { l.CH_TET? || l.ALLCH_GAIN? || l.ALLCH_PED? }

  predicate Setting(l: Line) { l.SET? || l.TET? || ForOneSlot(l) }

  /** The value a line gives to what the slots it is about hold. */
  function Sets(l: Line, k: Key): Option<Value> {
    match l
    case SET(p, v) => if k == Of(p) then Some(Number(v)) else None
    case TET(t) => if k.Threshold? && k.channel < CHANNELS then Some(Number(t)) else None
    case CH_TET(ch, t) => if k == Threshold(ch) then Some(Number(t)) else None
    case ALLCH_GAIN(values) => if k == Gains then Some(Numbers(values)) else None
    case ALLCH_PED(values) => if k == Pedestals then Some(Numbers(values)) else None
    case _ => None
  }

  /** A line is applicable to a slot if it names it, or all slots. */
  predicate Applicable(ctx: Context, l: Line, c: nat, n: int) {
    ctx.crate == c != 0 && Setting(l) && (ctx.slot == n || (ctx.slot == 0 && !ForOneSlot(l)))
        && !(ctx.slot == 0 && ForOneSlot(l))
  }

  /** What a slot uses: its own value, or, if it does not exist, what it would start with. */
  function Effective(crates: seq<Crate>, c: nat, n: int, k: Key): Value {
    if c >= |crates| then Zero(k)
    else if n in crates[c].slots then Get(crates[c].slots[n], k)
    else Get(crates[c].allSlots, k)
  }

  /** The value of the last line applicable to the slot; without one, what it was before. */
  function Last(start: seq<Crate>, lines: seq<Line>, c: nat, n: int, k: Key): Value {
    if lines == [] then Effective(start, c, n, k)
    else
      var before, l := lines[..|lines| - 1], lines[|lines| - 1];
      if Applicable(After(before), l, c, n) && Sets(l, k).Some? then Sets(l, k).value
      else Last(start, before, c, n, k)
  }

  /** Some line has brought the slot into being. */
  predicate Known(start: seq<Crate>, lines: seq<Line>, c: nat, n: int) {
    if lines == [] then c < |start| && n in start[c].slots
    else
      var before, l := lines[..|lines| - 1], lines[|lines| - 1];
      var ctx := After(before);
      || Known(start, before, c, n)
      || (ctx.crate == c != 0 && (l == SLOT(n) || (ctx.slot == n != 0 && Setting(l))))
  }

  /** The line sets something for a slot no SLOT line of that crate has named. */
  predicate Orphaned(start: seq<Crate>, before: seq<Line>, l: Line) {
    var ctx := After(before);
    ctx.crate != 0 && ctx.slot != 0 && Setting(l) && !Known(start, before, ctx.crate, ctx.slot)
  }

  /** Nothing the slot should have started with differs from zero, apart from what the line sets. */
  ghost predicate StartsBlank(start: seq<Crate>, before: seq<Line>, l: Line) {
    var ctx := After(before);
    forall k :: Sets(l, k).None? ==> Last(start, before, ctx.crate, ctx.slot, k) == Zero(k)
  }

  // ----- the interpreter -----

  function Grown(crates: seq<Crate>, c: nat): (r: seq<Crate>)
    ensures |r| == Max(|crates|, c + 1) && r[..|crates|] == crates
    ensures forall i :: |crates| <= i < |r| ==> r[i] == BlankCrate()
  {
    crates + Fill(if c < |crates| then 0 else c + 1 - |crates|, BlankCrate())
  }

  function ApplyToAll(l: Line, slots: map<int, Slot>): (r: map<int, Slot>)
    requires LineOk(l) && forall n :: n in slots ==> SlotOk(slots[n])
    ensures r.Keys == slots.Keys && forall n :: n in slots ==> r[n] == Apply(l, slots[n])
  {
    map n | n in slots :: Apply(l, slots[n])
  }

  function SetAll(crate: Crate, l: Line): Crate
    requires LineOk(l) && SlotOk(crate.allSlots) && forall n :: n in crate.slots ==> SlotOk(crate.slots[n])
  {
    crate.(allSlots := Apply(l, crate.allSlots), slots := ApplyToAll(l, crate.slots))
  }

  /** A slot that does not exist springs up blank, without what was set for all. */
  function SetOne(crate: Crate, n: int, l: Line): Crate
    requires LineOk(l) && forall n :: n in crate.slots ==> SlotOk(crate.slots[n])
  {
    crate.(slots := crate.slots[n := Apply(l, if n in crate.slots then crate.slots[n] else Blank())])
  }

  function Changed(crate: Crate, slot: int, l: Line): Crate
    requires LineOk(l) && SlotOk(crate.allSlots) && forall n :: n in crate.slots ==> SlotOk(crate.slots[n])
  {
    if l.SLOT? then
      if l.number in crate.slots then crate else crate.(slots := crate.slots[l.number := crate.allSlots])
    else if l.MODE? then crate.(mode := l.mode)
    else if !Setting(l) then crate
    else if slot != 0 then SetOne(crate, slot, l)
    else if ForOneSlot(l) then crate
    else SetAll(crate, l)
  }

  function Update(crates: seq<Crate>, ctx: Context, l: Line): (r: seq<Crate>)
    requires LineOk(l) && CratesOk(crates)
    ensures CratesOk(r)
  {
    if l.CRATE? || ctx.crate == 0 then crates
    else
      var grown := Grown(crates, ctx.crate);
      grown[ctx.crate := Changed(grown[ctx.crate], ctx.slot, l)]
  }

  predicate LinesOk(lines: seq<Line>) { forall i :: 0 <= i < |lines| ==> LineOk(lines[i]) }

  function Interpret(start: seq<Crate>, lines: seq<Line>): (r: seq<Crate>)
    requires LinesOk(lines) && CratesOk(start)
    ensures CratesOk(r)
  {
    if lines == [] then start
    else Update(Interpret(start, lines[..|lines| - 1]), After(lines[..|lines| - 1]), lines[|lines| - 1])
  }

  // ----- eager pushing is last-line semantics -----

  ghost predicate Honest(start: seq<Crate>, lines: seq<Line>)
    requires LinesOk(lines) && CratesOk(start)
  {
    forall c: nat, n: int, k: Key :: Effective(Interpret(start, lines), c, n, k) == Last(start, lines, c, n, k)
  }

  /** The configuration means what the lines say, after each of them. */
  ghost predicate HonestThroughout(start: seq<Crate>, lines: seq<Line>)
    requires LinesOk(lines) && CratesOk(start)
  {
    Honest(start, lines) && (lines != [] ==> HonestThroughout(start, lines[..|lines| - 1]))
  }

  ghost predicate Harmless(start: seq<Crate>, lines: seq<Line>) {
    lines != [] ==>
      var before, l := lines[..|lines| - 1], lines[|lines| - 1];
      Harmless(start, before) && (Orphaned(start, before, l) ==> StartsBlank(start, before, l))
  }

  lemma {:induction false} KnownExactly(start: seq<Crate>, lines: seq<Line>, c: nat, n: int)
    requires LinesOk(lines) && CratesOk(start)
    ensures var r := Interpret(start, lines); Known(start, lines, c, n) <==> c < |r| && n in r[c].slots
    decreases |lines|
  {
    hide CratesOk, SlotOk, Apply;
    if lines != [] {
      KnownExactly(start, lines[..|lines| - 1], c, n);
    }
  }

  lemma AppliedGet(l: Line, s: Slot, k: Key)
    requires LineOk(l) && SlotOk(s)
    ensures Get(Apply(l, s), k) == if Sets(l, k).Some? then Sets(l, k).value else Get(s, k)
  {
  }

  predicate SpringsUp(crates: seq<Crate>, ctx: Context, l: Line, c: nat, n: int) {
    ctx.crate == c != 0 && ctx.slot == n != 0 && Setting(l) && !(c < |crates| && n in crates[c].slots)
  }

  lemma EffectiveStep(crates: seq<Crate>, ctx: Context, l: Line, c: nat, n: int, k: Key)
    requires LineOk(l) && CratesOk(crates)
    ensures Effective(Update(crates, ctx, l), c, n, k)
            == if Applicable(ctx, l, c, n) && Sets(l, k).Some? then Sets(l, k).value
               else if SpringsUp(crates, ctx, l, c, n) then Zero(k)
               else Effective(crates, c, n, k)
  {
    hide Apply, Sets, Get, Zero;
    if !l.CRATE? && ctx.crate == c != 0 {
      var crate := Grown(crates, c)[c];
      GrownEffective(crates, c, n, k);
      hide Grown, Blank, CratesOk, SlotOk;
      ChangedStep(crate, ctx.slot, l, n, k);
    }
  }

  /** What a slot of a crate uses. */
  function InForce(crate: Crate, n: int, k: Key): Value {
    Get(if n in crate.slots then crate.slots[n] else crate.allSlots, k)
  }

  lemma GrownEffective(crates: seq<Crate>, c: nat, n: int, k: Key)
    requires CratesOk(crates)
    ensures var crate := Grown(crates, c)[c];
            && SlotOk(crate.allSlots) && (forall m :: m in crate.slots ==> SlotOk(crate.slots[m]))
            && InForce(crate, n, k) == Effective(crates, c, n, k)
            && (n in crate.slots <==> c < |crates| && n in crates[c].slots)
  {
    hide Zero, SlotOk;
  }

  lemma ChangedStep(crate: Crate, slot: int, l: Line, n: int, k: Key)
    requires LineOk(l) && !l.CRATE? && SlotOk(crate.allSlots) && forall m :: m in crate.slots ==> SlotOk(crate.slots[m])
    ensures InForce(Changed(crate, slot, l), n, k)
            == if Setting(l) && (slot == n || slot == 0) && !(slot == 0 && ForOneSlot(l)) && Sets(l, k).Some? then
                 Sets(l, k).value
               else if slot == n != 0 && Setting(l) && n !in crate.slots then Zero(k)
               else InForce(crate, n, k)
  {
    hide Apply, Sets, Get, Zero, SlotOk;
    AppliedGet(l, crate.allSlots, k);
    AppliedGet(l, if n in crate.slots then crate.slots[n] else Blank(), k);
  }

  lemma HonestStep(start: seq<Crate>, before: seq<Line>, l: Line, c: nat, n: int, k: Key)
    requires LinesOk(before + [l]) && LinesOk(before) && CratesOk(start) && Honest(start, before)
    ensures var ctx, lines := After(before), before + [l];
      Effective(Interpret(start, lines), c, n, k) == Last(start, lines, c, n, k)
      <==> (ctx.crate == c && ctx.slot == n && Orphaned(start, before, l) && Sets(l, k).None? ==>
            Last(start, before, c, n, k) == Zero(k))
  {
    hide CratesOk, Effective, Update, Sets, Get;
    var lines := before + [l];
    assert lines[..|lines| - 1] == before && lines[|lines| - 1] == l;
    KnownExactly(start, before, c, n);
    EffectiveStep(Interpret(start, before), After(before), l, c, n, k);
  }

  /** The numbers in force are those of the last applicable lines, after every line, exactly if no line
      sets something for a slot that no SLOT line of its crate has named while that slot should
      have started with another number than zero. */
  lemma {:induction false} HonestExactly(start: seq<Crate>, lines: seq<Line>)
    requires LinesOk(lines) && CratesOk(start)
    ensures HonestThroughout(start, lines) <==> Harmless(start, lines)
    decreases |lines|
  {
    hide CratesOk, Effective, Last, Sets, Get;
    if lines == [] {
      assert Honest(start, lines) by {
        StartsHonest(start);
      }
    } else {
      var before, l := lines[..|lines| - 1], lines[|lines| - 1];
      assert lines == before + [l];
      HonestExactly(start, before);
      if Honest(start, before) {
        HonestOneMore(start, before, l);
      }
    }
  }

  lemma StartsHonest(start: seq<Crate>)
    requires CratesOk(start)
    ensures Honest(start, [])
  {
  }

  lemma HonestOneMore(start: seq<Crate>, before: seq<Line>, l: Line)
    requires LinesOk(before + [l]) && LinesOk(before) && CratesOk(start) && Honest(start, before)
    ensures Honest(start, before + [l]) <==> (Orphaned(start, before, l) ==> StartsBlank(start, before, l))
  {
    hide CratesOk, Effective, Last, Sets, Get, Orphaned, Interpret, Known, After;
    var ctx, lines := After(before), before + [l];
    if Honest(start, lines) && Orphaned(start, before, l) {
      forall k | Sets(l, k).None? ensures Last(start, before, ctx.crate, ctx.slot, k) == Zero(k) {
        HonestStep(start, before, l, ctx.crate, ctx.slot, k);
      }
    }
    if Orphaned(start, before, l) ==> StartsBlank(start, before, l) {
      forall c: nat, n: int, k: Key ensures Effective(Interpret(start, lines), c, n, k) == Last(start, lines, c, n, k) {
        HonestStep(start, before, l, c, n, k);
      }
    }
  }

  // ----- files that name the slot anew in each crate -----

  /** Since the last CRATE line a SLOT line has come. */
  predicate Announced(lines: seq<Line>) {
    lines != [] &&
    var before, l := lines[..|lines| - 1], lines[|lines| - 1];
    match l
    case CRATE(Hps1) => false
    case CRATE(Hps2) => false
    case SLOT_ALL => After(before).crate != 0 || Announced(before)
    case SLOT(_) => After(before).crate != 0 || Announced(before)
    case _ => Announced(before)
  }

  predicate Disciplined(lines: seq<Line>) {
    lines != [] ==>
      var before, l := lines[..|lines| - 1], lines[|lines| - 1];
      Disciplined(before) && (Setting(l) && After(before).crate != 0 ==> Announced(before))
  }

  lemma {:induction false} AnnouncedKnown(start: seq<Crate>, lines: seq<Line>)
    requires Announced(lines) && After(lines).crate != 0 && After(lines).slot != 0
    ensures Known(start, lines, After(lines).crate, After(lines).slot)
    decreases |lines|
  {
    var before, l := lines[..|lines| - 1], lines[|lines| - 1];
    if !(l.SLOT? && After(before).crate != 0) {
      AnnouncedKnown(start, before);
    }
  }

  lemma {:induction false} DisciplinedHarmless(start: seq<Crate>, lines: seq<Line>)
    requires Disciplined(lines)
    ensures Harmless(start, lines)
    decreases |lines|
  {
    if lines != [] {
      var before := lines[..|lines| - 1];
      DisciplinedHarmless(start, before);
      if Orphaned(start, before, lines[|lines| - 1]) {
        AnnouncedKnown(start, before);
      }
    }
  }

  /** When every CRATE line is followed by a SLOT line before anything is set, every slot has the numbers
      of the last lines applicable to it, whenever it came into being. */
  lemma LastLineWins(start: seq<Crate>, lines: seq<Line>, c: nat, n: int, k: Key)
    requires LinesOk(lines) && CratesOk(start) && Disciplined(lines)
    requires c < |Interpret(start, lines)| && n in Interpret(start, lines)[c].slots
    ensures Get(Interpret(start, lines)[c].slots[n], k) == Last(start, lines, c, n, k)
  {
    DisciplinedHarmless(start, lines);
    HonestExactly(start, lines);
    assert Effective(Interpret(start, lines), c, n, k) == Last(start, lines, c, n, k);
  }

  /** The slot chosen in one crate stays chosen in the next: there it springs up without NSB. */
  lemma CarriedOverSlot(lines: seq<Line>)
    requires lines == [CRATE(Hps2), SLOT_ALL, SET(NSB, 5), CRATE(Hps1), SLOT(3), CRATE(Hps2), SET(NSA, 7)]
    ensures !Honest([], lines)
  {
    hide Interpret, Update, After, Known, Last;
    var before := lines[..6];
    Prefixes(lines);
    KnownExactly([], before, 2, 3);
    EffectiveStep(Interpret([], before), Context(2, 3), SET(NSA, 7), 2, 3, Of(NSB));
    InterpretLast(lines);
    assert Effective(Interpret([], lines), 2, 3, Of(NSB)) == Number(0);
  }

  lemma InterpretLast(lines: seq<Line>)
    requires lines != [] && LinesOk(lines)
    ensures Interpret([], lines)
            == Update(Interpret([], lines[..|lines| - 1]), After(lines[..|lines| - 1]), lines[|lines| - 1])
  {
  }

  lemma Prefixes(lines: seq<Line>)
    requires lines == [CRATE(Hps2), SLOT_ALL, SET(NSB, 5), CRATE(Hps1), SLOT(3), CRATE(Hps2), SET(NSA, 7)]
    ensures After(lines[..6]) == Context(2, 3) && !Known([], lines[..6], 2, 3)
    ensures Last([], lines, 2, 3, Of(NSB)) == Number(5)
  {
    hide After, Known, Last;
    var p0: seq<Line>, p1, p2, p3, p4, p5, p6 := [], lines[..1], lines[..2], lines[..3], lines[..4], lines[..5],
        lines[..6];
    OneLine(p0, p1, CRATE(Hps2));
    OneLine(p1, p2, SLOT_ALL);
    OneLine(p2, p3, SET(NSB, 5));
    OneLine(p3, p4, CRATE(Hps1));
    OneLine(p4, p5, SLOT(3));
    OneLine(p5, p6, CRATE(Hps2));
    OneLine(p6, lines, SET(NSA, 7));
  }

  lemma OneLine(before: seq<Line>, lines: seq<Line>, l: Line)
    requires lines == before + [l]
    ensures before == [] ==> After(before) == Context(0, 0) && !Known([], before, 2, 3)
    ensures After(lines) == Follow(After(before), l)
    ensures Known([], lines, 2, 3) ==>
            Known([], before, 2, 3)
                || (After(before).crate == 2 && (l == SLOT(3) || (After(before).slot == 3 && Setting(l))))
    ensures Last([], lines, 2, 3, Of(NSB))
            == if Applicable(After(before), l, 2, 3) && Sets(l, Of(NSB)).Some? then Sets(l, Of(NSB)).value
               else Last([], before, 2, 3, Of(NSB))
  {
    assert lines[..|lines| - 1] == before;
  }

  // ----- the same in the lines' own terms -----

  /** The last line with a crate's name, or `end`, was that of crate `name`. */
  predicate InCrate(lines: seq<Line>, name: CrateName) {
    exists i :: 0 <= i < |lines| && lines[i] == CRATE(name)
      && forall j :: i < j < |lines| ==> !lines[j].CRATE? || lines[j].name == Unknown
  }

  /** The line chooses slot `n`; 0 stands for all slots. */
  predicate Chooses(l: Line, n: int) { l == SLOT(n) || (l == SLOT_ALL && n == 0) }

  /** The last SLOT line in any crate chose slot `n`; before the first one all slots are chosen. */
  predicate Chosen(lines: seq<Line>, n: int) {
    if lines == [] then n == 0
    else
      var before, l := lines[..|lines| - 1], lines[|lines| - 1];
      if (l.SLOT? || l.SLOT_ALL?) && (InCrate(before, Hps1) || InCrate(before, Hps2)) then Chooses(l, n)
      else Chosen(before, n)
  }

  lemma {:induction false} InCrateStep(before: seq<Line>, l: Line, name: CrateName)
    requires name != Unknown
    ensures InCrate(before + [l], name) <==>
            l == CRATE(name) || ((!l.CRATE? || l.name == Unknown) && InCrate(before, name))
  {
    var lines := before + [l];
    if InCrate(lines, name) && l != CRATE(name) {
      var i :| 0 <= i < |lines| && lines[i] == CRATE(name)
        && forall j :: i < j < |lines| ==> !lines[j].CRATE? || lines[j].name == Unknown;
      assert lines[|before|] == l && i < |before| && before[i] == CRATE(name);
      assert forall j :: i < j < |before| ==> before[j] == lines[j];
    }
    if l == CRATE(name) {
      assert lines[|before|] == CRATE(name);
    } else if (!l.CRATE? || l.name == Unknown) && InCrate(before, name) {
      var i :| 0 <= i < |before| && before[i] == CRATE(name)
        && forall j :: i < j < |before| ==> !before[j].CRATE? || before[j].name == Unknown;
      assert lines[i] == CRATE(name);
      assert forall j :: i < j < |before| ==> lines[j] == before[j];
    }
  }

  /** hps1 is crate 1 and hps2 crate 2, from the line that names it to the next that names another or ends
      it; and the slot is the one chosen last within a crate. */
  lemma {:induction false} Where(lines: seq<Line>)
    ensures After(lines).crate == 1 <==> InCrate(lines, Hps1)
    ensures After(lines).crate == 2 <==> InCrate(lines, Hps2)
    ensures After(lines).crate in {0, 1, 2}
    ensures forall n :: Chosen(lines, n) <==> After(lines).slot == n
    decreases |lines|
  {
    hide InCrate;
    if lines != [] {
      var before, l := lines[..|lines| - 1], lines[|lines| - 1];
      assert lines == before + [l];
      Where(before);
      InCrateStep(before, l, Hps1);
      InCrateStep(before, l, Hps2);
    } else {
      NoCrate(Hps1);
      NoCrate(Hps2);
    }
  }

  lemma NoCrate(name: CrateName)
    ensures !InCrate([], name)
  {
  }

  /** What each kind of line does to a slot, field by field. */
  lemma LineSets(s: Slot, v: int, ch: nat, xs: seq<real>)
    requires SlotOk(s) && ch < CHANNELS
    ensures Apply(SET(NSB, v), s) == s.(nsb := v) && Apply(SET(NSA, v), s) == s.(nsa := v)
    ensures Apply(SET(NPEAK, v), s) == s.(npeak := v)
    ensures Apply(SET(W_OFFSET, v), s) == s.(wOffset := v) && Apply(SET(W_WIDTH, v), s) == s.(window := v)
    ensures Apply(CH_TET(ch, v), s) == s.(threshold := s.threshold[ch := v])
    ensures Apply(ALLCH_GAIN(xs), s) == s.(gain := xs) && Apply(ALLCH_PED(xs), s) == s.(pedestal := xs)
    ensures var r := Apply(TET(v), s);
            r == s.(threshold := r.threshold) && |r.threshold| == 16 && forall i :: 0 <= i < 16 ==> r.threshold[i] == v
  {
  }

  /** A crate nobody has configured: mode 0, and a slot of zeros. */
  predicate Untouched(crate: Crate) {
    var s := crate.allSlots;
    && crate.mode == 0 && crate.slots == map[]
    && s.nsb == 0 && s.nsa == 0 && s.npeak == 0 && s.wOffset == 0 && s.window == 0
    && |s.threshold| == 16 && |s.pedestal| == 16 && |s.gain| == 16
    && forall i :: 0 <= i < 16 ==> s.threshold[i] == 0 && s.pedestal[i] == 0.0 && s.gain[i] == 0.0
  }

  /** Crate `c` before the line. */
  function CrateAt(crates: seq<Crate>, c: nat): Crate { if c < |crates| then crates[c] else BlankCrate() }

  /** What one more line does.  Outside a crate, and if it names one, nothing.  Within hps1 or hps2 it
      touches crate 1 or 2 and no other, where earlier ones spring up untouched: a mode line sets the mode, a
      SLOT line makes the slot as all slots are unless it exists, a setting changes the chosen slot, which
      springs up untouched if it does not exist, or the slot of all and every slot there is. */
  lemma OneLineMore(start: seq<Crate>, before: seq<Line>, l: Line, c: nat, n: int)
    requires LinesOk(before + [l]) && LinesOk(before) && CratesOk(start)
    requires if InCrate(before, Hps1) then c == 1 else if InCrate(before, Hps2) then c == 2 else c == 0
    requires Chosen(before, n)
    ensures Untouched(BlankCrate())
    ensures var r0, r := Interpret(start, before), Interpret(start, before + [l]);
            var was := CrateAt(r0, c);
            if l.CRATE? || c == 0 then r == r0
            else
              && |r| == (if |r0| <= c then c + 1 else |r0|)
              && (forall d :: 0 <= d < |r| && d != c ==> r[d] == CrateAt(r0, d))
              && (l.MODE? ==> r[c] == was.(mode := l.mode))
              && (l.SLOT? ==> r[c] == if l.number in was.slots then was
                                      else was.(slots := was.slots[l.number := was.allSlots]))
              && (l.SLOT_ALL? || l.OTHER? ==> r[c] == was)
              && (n != 0 && Setting(l) ==>
                    var s := if n in was.slots then was.slots[n] else BlankCrate().allSlots;
                    SlotOk(s) && r[c] == was.(slots := was.slots[n := Apply(l, s)]))
              && (n == 0 && (l.SET? || l.TET?) ==>
                    && r[c].mode == was.mode && SlotOk(was.allSlots) && r[c].allSlots == Apply(l, was.allSlots)
                    && r[c].slots.Keys == was.slots.Keys
                    && forall k :: k in was.slots ==> SlotOk(was.slots[k]) && r[c].slots[k] == Apply(l, was.slots[k]))
              && (n == 0 && (l.CH_TET? || l.ALLCH_GAIN? || l.ALLCH_PED?) ==> r[c] == was)
  {
    hide InCrate, Chosen, Apply;
    assert (before + [l])[..|before|] == before;
    Where(before);
  }

  /** A crate's mode is that of the last mode line within it. */
  lemma {:induction false} ModeOfLastLine(start: seq<Crate>, lines: seq<Line>, i: nat, name: CrateName, c: nat)
    requires LinesOk(lines) && CratesOk(start) && i < |lines| && lines[i].MODE?
    requires (name == Hps1 && c == 1) || (name == Hps2 && c == 2)
    requires InCrate(lines[..i], name) && forall j :: i < j < |lines| && lines[j].MODE? ==> !InCrate(lines[..j], name)
    ensures c < |Interpret(start, lines)| && Interpret(start, lines)[c].mode == lines[i].mode
    decreases |lines|
  {
    hide InCrate, Apply, CratesOk, SlotOk;
    var before, l := lines[..|lines| - 1], lines[|lines| - 1];
    Where(before);
    if i < |lines| - 1 {
      assert before[..i] == lines[..i] && forall j :: 0 <= j < |before| ==> before[..j] == lines[..j];
      ModeOfLastLine(start, before, i, name, c);
    }
  }

  // ----- the interpreter as it runs -----

  class Configuration {
    var crates: seq<Crate>
    var isInitialized: bool

    constructor ()
      ensures crates == [] && !isInitialized
    {
      crates, isInitialized := [], false;
    }

    /** All lines in turn, on top of what an earlier parse left. */
    method ParseRawData(lines: seq<Line>)
      requires CratesOk(crates) && LinesOk(lines)
      modifies this
      ensures crates == Interpret(old(crates), lines) && isInitialized
    {
      var crateNumber, currentSlot: int := 0, 0;
      for i := 0 to |lines|
        invariant crateNumber >= 0 && Context(crateNumber, currentSlot) == After(lines[..i])
        invariant crates == Interpret(old(crates), lines[..i])
      {
        var l := lines[i];
        assert lines[..i + 1][..i] == lines[..i];
        if l.CRATE? {
          match l.name {
            case Hps1 => crateNumber := 1;
            case Hps2 => crateNumber := 2;
            case End => crateNumber := 0;
            case Unknown =>
          }
        } else if crateNumber != 0 {
          currentSlot := Line(crateNumber, currentSlot, l);
        }
      }
      assert lines[..|lines|] == lines;
      isInitialized := true;
    }

    method Line(c: nat, slot: int, l: Line) returns (currentSlot: int)
      requires c != 0 && CratesOk(crates) && LineOk(l) && !l.CRATE?
      modifies `crates
      ensures currentSlot == Follow(Context(c, slot), l).slot
      ensures crates == Update(old(crates), Context(c, slot), l)
    {
      currentSlot := slot;
      while |crates| < c + 1
        invariant |old(crates)| <= |crates| <= Max(|old(crates)|, c + 1)
        invariant crates == old(crates) + Fill(|crates| - |old(crates)|, BlankCrate())
      {
        crates := crates + [BlankCrate()];
      }
      ghost var grown := crates;
      assert grown == Grown(old(crates), c) && grown == grown[c := grown[c]];
      if l.SLOT_ALL? {
        currentSlot := 0;
      } else if l.SLOT? {
        currentSlot := l.number;
        if currentSlot !in crates[c].slots {
          crates := crates[c := crates[c].(slots := crates[c].slots[currentSlot := crates[c].allSlots])];
        }
      } else if l.MODE? {
        crates := crates[c := crates[c].(mode := l.mode)];
      } else if Setting(l) {
        if slot != 0 {
          // The map's index operator makes a blank slot where there is none.
          if slot !in crates[c].slots {
            crates := crates[c := crates[c].(slots := crates[c].slots[slot := Blank()])];
          }
          crates := crates[c := crates[c].(slots := crates[c].slots[slot := Apply(l, crates[c].slots[slot])])];
          assert crates[c].slots == SetOne(grown[c], slot, l).slots;
        } else if !ForOneSlot(l) {
          crates := crates[c := crates[c].(allSlots := Apply(l, crates[c].allSlots))];
          crates := crates[c := crates[c].(slots := ApplyToAll(l, crates[c].slots))];
        }
      }
      assert crates == grown[c := Changed(grown[c], slot, l)];
    }
  }
}

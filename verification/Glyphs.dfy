/**
 The two completed-glyph machines. V1 reports every stable change of a seat's glyph; V2 also
 rejects a change that follows a report too closely and suspends itself under an overlay.
 */
module Glyphs {
  import opened Common

  type Slot = nat

  /** What is visible at a seat: a glyph, or nothing recognised. */
  type Value = Option<string>

  datatype Reading = Reading(slot: Slot, value: Value)

  predicate DistinctSlots(rs: seq<Reading>)
  {
    forall i, j | 0 <= i < j < |rs| :: rs[i].slot != rs[j].slot
  }

  /** The items of one frame's dictionary, in iteration order. */
  type Readings = rs: seq<Reading> | DistinctSlots(rs) witness []

  datatype Event = Event(frame: int, slot: Slot, glyph: string)

  datatype Error = DuplicateOrBackwardsFrame | PositiveStabilityRequired | ClearStabilityTooShort | GuardTooShort

  datatype Settings = Settings(stable: int, clear: int)
  {
    predicate Valid() { 1 <= stable <= clear }

    function Threshold(v: Value): int { if v.None? then clear else stable }
  }

  /** Per-seat memory of V1. */
  datatype Cell1 = Cell1(previous: Value, count: nat, emitted: Value)

  /** Per-seat memory of V2. */
  datatype Cell2 = Cell2(previous: Value, count: nat, emitted: Value, emittedFrame: Option<int>, suppressed: Value)

  const FRESH1 := Cell1(None, 0, None)
  const FRESH2 := Cell2(None, 0, None, None, None)

  datatype Machine<C> = Machine(last: Option<int>, cells: map<Slot, C>)

  function Streak(previous: Value, count: nat, v: Value): nat
  {
    if v == previous then count + 1 else 1
  }

  function Advance1(s: Settings, c: Cell1, v: Value): Cell1
  {
    var n := Streak(c.previous, c.count, v);
    Cell1(v, n, if n >= s.Threshold(v) then v else c.emitted)
  }

  predicate Reports1(s: Settings, c: Cell1, v: Value)
  {
    v.Some? && Streak(c.previous, c.count, v) >= s.stable && v != c.emitted
  }

  predicate TooSoon(guard: int, frame: int, c: Cell2)
  {
    c.emitted.Some? && c.emittedFrame.Some? && frame - c.emittedFrame.value <= guard
  }

  predicate Reports2(s: Settings, guard: int, frame: int, c: Cell2, v: Value)
  {
    && v.Some? && Streak(c.previous, c.count, v) >= s.stable && v != c.emitted
    && c.suppressed != v && !TooSoon(guard, frame, c)
  }

  function Advance2(s: Settings, guard: int, frame: int, c: Cell2, v: Value): Cell2
  {
    var n := Streak(c.previous, c.count, v);
    if n < s.Threshold(v) || v == c.emitted || (v.Some? && c.suppressed == v) then
      Cell2(v, n, c.emitted, c.emittedFrame, c.suppressed)
    else if v.None? then Cell2(v, n, None, None, None)
    else if TooSoon(guard, frame, c) then Cell2(v, n, c.emitted, c.emittedFrame, v)
    else Cell2(v, n, v, Some(frame), None)
  }

  function CellAt<C>(cells: map<Slot, C>, slot: Slot, blank: C): C
  {
    if slot in cells then cells[slot] else blank
  }

  /** The cells left by clearing on a frame gap. */
  function Carried<C>(m: Machine<C>, frame: int): map<Slot, C>
  {
    if m.last.None? || frame != m.last.value + 1 then map[] else m.cells
  }

  function Cells1(s: Settings, cells: map<Slot, Cell1>, rs: seq<Reading>): map<Slot, Cell1>
  {
    if rs == [] then cells
    else
      var before := Cells1(s, cells, rs[..|rs| - 1]);
      var r := rs[|rs| - 1];
      before[r.slot := Advance1(s, CellAt(before, r.slot, FRESH1), r.value)]
  }

  function Events1(s: Settings, frame: int, cells: map<Slot, Cell1>, rs: seq<Reading>): seq<Event>
  {
    if rs == [] then []
    else
      var before := Cells1(s, cells, rs[..|rs| - 1]);
      var r := rs[|rs| - 1];
      Events1(s, frame, cells, rs[..|rs| - 1]) +
      if Reports1(s, CellAt(before, r.slot, FRESH1), r.value) then [Event(frame, r.slot, r.value.value)] else []
  }

  function Cells2(s: Settings, guard: int, frame: int, cells: map<Slot, Cell2>, rs: seq<Reading>): map<Slot, Cell2>
  {
    if rs == [] then cells
    else
      var before := Cells2(s, guard, frame, cells, rs[..|rs| - 1]);
      var r := rs[|rs| - 1];
      before[r.slot := Advance2(s, guard, frame, CellAt(before, r.slot, FRESH2), r.value)]
  }

  function Events2(s: Settings, guard: int, frame: int, cells: map<Slot, Cell2>, rs: seq<Reading>): seq<Event>
  {
    if rs == [] then []
    else
      var before := Cells2(s, guard, frame, cells, rs[..|rs| - 1]);
      var r := rs[|rs| - 1];
      Events2(s, guard, frame, cells, rs[..|rs| - 1]) +
      if Reports2(s, guard, frame, CellAt(before, r.slot, FRESH2), r.value) then [Event(frame, r.slot, r.value.value)]
        else []
  }

  lemma Sweep1Next(s: Settings, frame: int, cells: map<Slot, Cell1>, rs: seq<Reading>, i: int)
    requires 0 <= i < |rs|
    ensures
      var before := Cells1(s, cells, rs[..i]);
      var c := CellAt(before, rs[i].slot, FRESH1);
      && Cells1(s, cells, rs[..i + 1]) == before[rs[i].slot := Advance1(s, c, rs[i].value)]
      && Events1(s, frame, cells, rs[..i + 1]) == Events1(s, frame, cells, rs[..i]) +
           if Reports1(s, c, rs[i].value) then [Event(frame, rs[i].slot, rs[i].value.value)] else []
  {
    assert rs[..i + 1][..i] == rs[..i];
  }

  lemma Sweep2Next(s: Settings, guard: int, frame: int, cells: map<Slot, Cell2>, rs: seq<Reading>, i: int)
    requires 0 <= i < |rs|
    ensures
      var before := Cells2(s, guard, frame, cells, rs[..i]);
      var c := CellAt(before, rs[i].slot, FRESH2);
      && Cells2(s, guard, frame, cells, rs[..i + 1]) == before[rs[i].slot := Advance2(s, guard, frame, c, rs[i].value)]
      && Events2(s, guard, frame, cells, rs[..i + 1]) == Events2(s, guard, frame, cells, rs[..i]) +
           if Reports2(s, guard, frame, c, rs[i].value) then [Event(frame, rs[i].slot, rs[i].value.value)] else []
  {
    assert rs[..i + 1][..i] == rs[..i];
  }

  /** Under an overlay only the confirmed and the suppressed glyphs survive. */
  function Suspend(cells: map<Slot, Cell2>): map<Slot, Cell2>
  {
    map slot | slot in cells :: cells[slot].(previous := None, count := 0)
  }

  predicate Backwards<C>(m: Machine<C>, frame: int)
  {
    m.last.Some? && frame <= m.last.value
  }

  function Observe1(s: Settings, m: Machine<Cell1>, frame: int, rs: seq<Reading>)
    : Result<(Machine<Cell1>, seq<Event>), Error>
  {
    if Backwards(m, frame) then Raised(DuplicateOrBackwardsFrame)
    else
      var cells := Carried(m, frame);
      Ok((Machine(Some(frame), Cells1(s, cells, rs)), Events1(s, frame, cells, rs)))
  }

  function Observe2(s: Settings, guard: int, m: Machine<Cell2>, frame: int, rs: seq<Reading>, suspended: bool)
    : Result<(Machine<Cell2>, seq<Event>), Error>
  {
    if Backwards(m, frame) then Raised(DuplicateOrBackwardsFrame)
    else
      var cells := Carried(m, frame);
      if suspended then Ok((Machine(Some(frame), Suspend(cells)), []))
      else Ok((Machine(Some(frame), Cells2(s, guard, frame, cells, rs)), Events2(s, guard, frame, cells, rs)))
  }

  class GlyphTransitions {
    const settings: Settings
    var last: Option<int>
    var state: map<Slot, Cell1>

    constructor (settings: Settings)
      requires settings.Valid()
      ensures this.settings == settings && State() == Machine(None, map[])
    {
      this.settings := settings;
      last, state := None, map[];
    }

    function State(): Machine<Cell1>
      reads this
    {
      Machine(last, state)
    }

    static method Create(stable: int, clear: int) returns (r: Result<GlyphTransitions, Error>)
      ensures r.Ok? <==> Settings(stable, clear).Valid()
      ensures r.Ok? ==>
        fresh(r.value) && r.value.settings == Settings(stable, clear)
        && r.value.State() == Machine(None, map[])
      ensures r.Raised? ==> r.error == if stable < 1 then PositiveStabilityRequired else ClearStabilityTooShort
    {
      if stable < 1 { return Raised(PositiveStabilityRequired); }
      if clear < stable { return Raised(ClearStabilityTooShort); }
      var machine := new GlyphTransitions(Settings(stable, clear));
      r := Ok(machine);
    }

    method Observe(frame: int, values: Readings) returns (r: Result<seq<Event>, Error>)
      modifies this
      ensures match Observe1(settings, old(State()), frame, values)
              case Raised(e) => r == Raised(e) && State() == old(State())
              case Ok(next) => r == Ok(next.1) && State() == next.0
    {
      if last.Some? && frame <= last.value { return Raised(DuplicateOrBackwardsFrame); }
      if last.None? || frame != last.value + 1 { state := map[]; }
      last := Some(frame);
      var events := [];
      ghost var start := state;
      for i := 0 to |values|
        invariant last == Some(frame)
        invariant state == Cells1(settings, start, values[..i])
        invariant events == Events1(settings, frame, start, values[..i])
      {
        Sweep1Next(settings, frame, start, values, i);
        hide Cells1, Events1;
        var slot, value := values[i].slot, values[i].value;
        var cell := if slot in state then state[slot] else FRESH1;
        var count := if value == cell.previous then cell.count + 1 else 1;
        var emitted := cell.emitted;
        if count >= settings.Threshold(value) && value != emitted {
          emitted := value;
          if value.Some? { events := events + [Event(frame, slot, value.value)]; }
        }
        assert Cell1(value, count, emitted) == Advance1(settings, cell, value);
        state := state[slot := Cell1(value, count, emitted)];
      }
      assert values[..|values|] == values;
      r := Ok(events);
    }
  }

  class GlyphTransitionsV2 {
    const settings: Settings
    const guard: int
    var last: Option<int>
    var state: map<Slot, Cell2>

    constructor (settings: Settings, guard: int)
      requires settings.Valid() && settings.stable <= guard
      ensures this.settings == settings && this.guard == guard && State() == Machine(None, map[])
    {
      this.settings, this.guard := settings, guard;
      last, state := None, map[];
    }

    function State(): Machine<Cell2>
      reads this
    {
      Machine(last, state)
    }

    static method Create(stable: int, clear: int, guard: int) returns (r: Result<GlyphTransitionsV2, Error>)
      ensures r.Ok? <==> Settings(stable, clear).Valid() && stable <= guard
      ensures r.Ok? ==> fresh(r.value) && r.value.settings == Settings(stable, clear) && r.value.guard == guard
      ensures r.Ok? ==> r.value.State() == Machine(None, map[])
      ensures r.Raised? ==> r.error == if stable < 1 then PositiveStabilityRequired
                                       else if clear < stable then ClearStabilityTooShort else GuardTooShort
    {
      if stable < 1 { return Raised(PositiveStabilityRequired); }
      if clear < stable { return Raised(ClearStabilityTooShort); }
      if guard < stable { return Raised(GuardTooShort); }
      var machine := new GlyphTransitionsV2(Settings(stable, clear), guard);
      r := Ok(machine);
    }

    /** An explicit hand boundary forgets every seat. */
    method BeginEpoch()
      modifies this
      ensures State() == Machine(old(last), map[])
    {
      state := map[];
    }

    method Observe(frame: int, values: Readings, suspended: bool) returns (r: Result<seq<Event>, Error>)
      modifies this
      ensures match Observe2(settings, guard, old(State()), frame, values, suspended)
              case Raised(e) => r == Raised(e) && State() == old(State())
              case Ok(next) => r == Ok(next.1) && State() == next.0
    {
      if last.Some? && frame <= last.value { return Raised(DuplicateOrBackwardsFrame); }
      if last.None? || frame != last.value + 1 { state := map[]; }
      last := Some(frame);
      ghost var start := state;
      if suspended {
        state := map slot | slot in state :: state[slot].(previous := None, count := 0);
        return Ok([]);
      }
      var events := [];
      for i := 0 to |values|
        invariant last == Some(frame)
        invariant state == Cells2(settings, guard, frame, start, values[..i])
        invariant events == Events2(settings, guard, frame, start, values[..i])
      {
        Sweep2Next(settings, guard, frame, start, values, i);
        hide Cells2, Events2;
        var slot, value := values[i].slot, values[i].value;
        var cell := if slot in state then state[slot] else FRESH2;
        var count := if value == cell.previous then cell.count + 1 else 1;
        var emitted, emittedFrame, suppressed := cell.emitted, cell.emittedFrame, cell.suppressed;
        if count >= settings.Threshold(value) && value != emitted {
          if value.None? {
            emitted, emittedFrame, suppressed := None, None, None;
          } else if suppressed == value {
            // Already rejected; only a stable clear or a new epoch re-arms it.
          } else if emitted.Some? && emittedFrame.Some? && frame - emittedFrame.value <= guard {
            suppressed := value;
          } else {
            emitted, emittedFrame, suppressed := value, Some(frame), None;
            events := events + [Event(frame, slot, value.value)];
          }
        }
        var next := Cell2(value, count, emitted, emittedFrame, suppressed);
        assert next == Advance2(settings, guard, frame, cell, value);
        state := state[slot := next];
      }
      assert values[..|values|] == values;
      r := Ok(events);
    }
  }

  // ---------------------------------------------------------------- whole recordings

  /** One frame as both pipelines see it. */
  datatype Row = Row(frame: int, values: seq<Reading>, suspended: bool)

  /** An unsupported frame hides every seat of the layout; no other seat is ever read. */
  predicate Fed(slots: set<Slot>, row: Row)
  {
    && DistinctSlots(row.values)
    && (forall i | 0 <= i < |row.values| :: row.values[i].slot in slots)
    && (row.suspended ==>
          && (forall i | 0 <= i < |row.values| :: row.values[i].value.None?)
          && (forall slot | slot in slots :: Shows(row.values, slot)))
  }

  predicate Shows(rs: seq<Reading>, slot: Slot)
  {
    exists i :: 0 <= i < |rs| && rs[i].slot == slot
  }

  /** The first frame that raises ends a pipeline; its events so far are kept here. */
  datatype Run<C> = Run(machine: Machine<C>, events: seq<Event>, raised: bool)

  function Run1(s: Settings, rows: seq<Row>): Run<Cell1>
  {
    if rows == [] then Run(Machine(None, map[]), [], false)
    else
      var before := Run1(s, rows[..|rows| - 1]);
      var row := rows[|rows| - 1];
      if before.raised then before
      else match Observe1(s, before.machine, row.frame, row.values)
        case Raised(_) => before.(raised := true)
        case Ok(next) => Run(next.0, before.events + next.1, false)
  }

  function Run2(s: Settings, guard: int, rows: seq<Row>): Run<Cell2>
  {
    if rows == [] then Run(Machine(None, map[]), [], false)
    else
      var before := Run2(s, guard, rows[..|rows| - 1]);
      var row := rows[|rows| - 1];
      if before.raised then before
      else match Observe2(s, guard, before.machine, row.frame, row.values, row.suspended)
        case Raised(_) => before.(raised := true)
        case Ok(next) => Run(next.0, before.events + next.1, false)
  }

  // ---------------------------------------------------------------- V2 only removes V1 events

  /** How V1's memory of a seat relates to V2's. */
  predicate Coupled(c1: Cell1, c2: Cell2)
  {
    && c1.previous == c2.previous
    && (if c1.previous.Some? then c1.count == c2.count else c1.count >= c2.count)
    && (c1.emitted.None? || c1.emitted == c2.emitted || c1.emitted == c2.suppressed)
    && (c2.emitted.None? ==> c2.suppressed.None?)
  }

  ghost predicate CoupledCells(slots: set<Slot>, cells1: map<Slot, Cell1>, cells2: map<Slot, Cell2>)
  {
    && cells1.Keys <= slots && cells2.Keys <= slots
    && forall slot | slot in slots :: Coupled(CellAt(cells1, slot, FRESH1), CellAt(cells2, slot, FRESH2))
  }

  lemma CoupledStep(s: Settings, guard: int, frame: int, c1: Cell1, c2: Cell2, v: Value)
    requires s.Valid() && Coupled(c1, c2)
    ensures Coupled(Advance1(s, c1, v), Advance2(s, guard, frame, c2, v))
    ensures Reports2(s, guard, frame, c2, v) ==> Reports1(s, c1, v)
  {
  }

  /** One reading of one seat keeps every seat coupled. */
  lemma CoupledReading(
      s: Settings, guard: int, frame: int, slots: set<Slot>, cells1: map<Slot, Cell1>, cells2: map<Slot, Cell2>,
        r: Reading)
    requires s.Valid() && CoupledCells(slots, cells1, cells2) && r.slot in slots
    ensures var c1, c2 := CellAt(cells1, r.slot, FRESH1), CellAt(cells2, r.slot, FRESH2);
      && CoupledCells(slots, cells1[r.slot := Advance1(s, c1, r.value)],
        cells2[r.slot := Advance2(s, guard, frame, c2, r.value)])
      && (Reports2(s, guard, frame, c2, r.value) ==> Reports1(s, c1, r.value))
  {
    hide Coupled, Advance1, Advance2, Reports1, Reports2;
    CoupledStep(s, guard, frame, CellAt(cells1, r.slot, FRESH1), CellAt(cells2, r.slot, FRESH2), r.value);
  }

  lemma {:induction false} SweepCoupled(
      s: Settings, guard: int, frame: int, slots: set<Slot>,
      cells1: map<Slot, Cell1>, cells2: map<Slot, Cell2>, rs: seq<Reading>)
    requires s.Valid() && CoupledCells(slots, cells1, cells2)
    requires forall i | 0 <= i < |rs| :: rs[i].slot in slots
    ensures CoupledCells(slots, Cells1(s, cells1, rs), Cells2(s, guard, frame, cells2, rs))
    ensures Subsequence(Events2(s, guard, frame, cells2, rs), Events1(s, frame, cells1, rs))
  {
    if rs != [] {
      var front, r := rs[..|rs| - 1], rs[|rs| - 1];
      SweepCoupled(s, guard, frame, slots, cells1, cells2, front);
      hide CoupledCells, Coupled, Advance1, Advance2, Reports1, Reports2, CellAt;
      var c1 := CellAt(Cells1(s, cells1, front), r.slot, FRESH1);
      var c2 := CellAt(Cells2(s, guard, frame, cells2, front), r.slot, FRESH2);
      CoupledReading(s, guard, frame, slots, Cells1(s, cells1, front), Cells2(s, guard, frame, cells2, front), r);
      var e1 := if Reports1(s, c1, r.value) then [Event(frame, r.slot, r.value.value)] else [];
      var e2 := if Reports2(s, guard, frame, c2, r.value) then [Event(frame, r.slot, r.value.value)] else [];
      assert Subsequence(e2, e1);
      SubsequenceAppend(Events2(s, guard, frame, cells2, front), Events1(s, frame, cells1, front), e2, e1);
    }
  }

  /** Reading nothing anywhere leaves each V1 cell as if advanced once by nothing. */
  lemma {:induction false} BlankSweep(s: Settings, frame: int, cells: map<Slot, Cell1>, rs: seq<Reading>)
    requires DistinctSlots(rs) && forall i | 0 <= i < |rs| :: rs[i].value.None?
    ensures Events1(s, frame, cells, rs) == []
    ensures forall slot :: slot in Cells1(s, cells, rs) <==> slot in cells || Shows(rs, slot)
    ensures forall slot | slot in Cells1(s, cells, rs) :: Cells1(s, cells, rs)[slot] ==
              if Shows(rs, slot) then Advance1(s, CellAt(cells, slot, FRESH1), None) else cells[slot]
  {
    if rs != [] {
      var front, r := rs[..|rs| - 1], rs[|rs| - 1];
      BlankSweep(s, frame, cells, front);
      hide Cells1, Events1, Advance1;
      Sweep1Next(s, frame, cells, rs, |rs| - 1);
      assert rs == front + [r] && rs[..|rs| - 1 + 1] == rs;
      assert !Shows(front, r.slot);
      forall slot ensures Shows(rs, slot) <==> Shows(front, slot) || slot == r.slot { ShowsSnoc(front, r, slot); }
      hide Shows;
    }
  }

  lemma SuspendCoupled(
      s: Settings, frame: int, slots: set<Slot>, cells1: map<Slot, Cell1>, cells2: map<Slot, Cell2>, row: Row)
    requires s.Valid() && CoupledCells(slots, cells1, cells2) && Fed(slots, row) && row.suspended
    ensures CoupledCells(slots, Cells1(s, cells1, row.values), Suspend(cells2))
    ensures Events1(s, frame, cells1, row.values) == []
  {
    BlankSweep(s, frame, cells1, row.values);
    var after := Cells1(s, cells1, row.values);
    forall slot | slot in after ensures slot in slots {
      if slot !in cells1 {
        var i :| 0 <= i < |row.values| && row.values[i].slot == slot;
      }
    }
    forall slot | slot in slots
      ensures Coupled(CellAt(after, slot, FRESH1), CellAt(Suspend(cells2), slot, FRESH2))
    {
      assert Shows(row.values, slot);
      assert Coupled(CellAt(cells1, slot, FRESH1), CellAt(cells2, slot, FRESH2));
    }
  }

  /** For every recording: both pipelines stop at the same frame, and V2's events are V1's with some deleted. */
  lemma {:induction false} V2RemovesOnly(s: Settings, guard: int, slots: set<Slot>, rows: seq<Row>)
    requires s.Valid() && forall i | 0 <= i < |rows| :: Fed(slots, rows[i])
    ensures Run1(s, rows).raised == Run2(s, guard, rows).raised
    ensures Run1(s, rows).machine.last == Run2(s, guard, rows).machine.last
    ensures CoupledCells(slots, Run1(s, rows).machine.cells, Run2(s, guard, rows).machine.cells)
    ensures Subsequence(Run2(s, guard, rows).events, Run1(s, rows).events)
  {
    if rows != [] {
      var front, row := rows[..|rows| - 1], rows[|rows| - 1];
      V2RemovesOnly(s, guard, slots, front);
      var r1, r2 := Run1(s, front), Run2(s, guard, front);
      if !r1.raised && !Backwards(r1.machine, row.frame) {
        var cells1, cells2 := Carried(r1.machine, row.frame), Carried(r2.machine, row.frame);
        assert CoupledCells(slots, cells1, cells2);
        if row.suspended {
          SuspendCoupled(s, row.frame, slots, cells1, cells2, row);
          assert r1.events + [] == r1.events && r2.events + [] == r2.events;
        } else {
          SweepCoupled(s, guard, row.frame, slots, cells1, cells2, row.values);
          SubsequenceAppend(r2.events, r1.events,
                            Events2(s, guard, row.frame, cells2, row.values),
                              Events1(s, row.frame, cells1, row.values));
        }
      }
    }
  }

  /**
   The hypothesis that an unsupported frame blanks every seat is needed: were one seat missing from it,
   V1 would go on counting across the overlay and V2 would report later, at a frame V1 never reported.
   */
  lemma MissingSeatBreaksIt()
    ensures
      var rows := [Row(0, [Reading(0, Some("call"))], false), Row(1, [], true),
                   Row(2, [Reading(0, Some("call"))], false), Row(3, [Reading(0, Some("call"))], false)];
      && Run1(Settings(2, 5), rows).events == [Event(2, 0, "call")]
      && Run2(Settings(2, 5), 5, rows).events == [Event(3, 0, "call")]
      && !Subsequence(Run2(Settings(2, 5), 5, rows).events, Run1(Settings(2, 5), rows).events)
  {
    var s := Settings(2, 5);
    var a, b, c, d := Row(0, [Reading(0, Some("call"))], false), Row(1, [], true),
                      Row(2, [Reading(0, Some("call"))], false), Row(3, [Reading(0, Some("call"))], false);
    var one := Reading(0, Some("call"));
    assert [one][..0] == [];
    assert [a][..0] == [] && [a, b][..1] == [a] && [a, b, c][..2] == [a, b] && [a, b, c, d][..3] == [a, b, c];
    assert Run1(s, []).events == [];
    assert Run1(s, [a]) == Run(Machine(Some(0), map[0 := Cell1(Some("call"), 1, None)]), [], false);
    assert Run1(s, [a, b]) == Run(Machine(Some(1), map[0 := Cell1(Some("call"), 1, None)]), [], false);
    assert Run1(s, [a, b, c]) ==
      Run(Machine(Some(2), map[0 := Cell1(Some("call"), 2, Some("call"))]), [Event(2, 0, "call")], false);
    assert Run2(s, 5, []).events == [];
    assert Run2(s, 5, [a]) == Run(Machine(Some(0), map[0 := Cell2(Some("call"), 1, None, None, None)]), [], false);
    assert Run2(s, 5, [a, b]) == Run(Machine(Some(1), map[0 := Cell2(None, 0, None, None, None)]), [], false);
    assert Run2(s, 5, [a, b, c]) ==
      Run(Machine(Some(2), map[0 := Cell2(Some("call"), 1, None, None, None)]), [], false);
  }

  // ---------------------------------------------------------------- spacing of V2 events

  predicate Gapless(rows: seq<Row>)
  {
    forall i | 0 < i < |rows| :: rows[i].frame == rows[i - 1].frame + 1
  }

  /** The frame of the latest event of a seat. */
  function LastEvent(events: seq<Event>, slot: Slot): Option<int>
  {
    if events == [] then None
    else if events[|events| - 1].slot == slot then Some(events[|events| - 1].frame)
    else LastEvent(events[..|events| - 1], slot)
  }

  /** Two reports of one seat this far apart are a genuine change or follow a full clear. */
  predicate Apart(s: Settings, guard: int, earlier: int, later: int)
  {
    later - earlier > guard || later - earlier >= s.clear + s.stable
  }

  predicate Spaced(s: Settings, guard: int, events: seq<Event>)
  {
    forall i, j | 0 <= i < j < |events| && events[i].slot == events[j].slot ::
      Apart(s, guard, events[i].frame, events[j].frame)
  }

  /** What a cell remembers of its latest report, at the end of frame `now`. */
  predicate Remembers(s: Settings, c: Cell2, reported: Option<int>, now: int)
  {
    && (reported.None? ==> c.emitted.None?)
    && (reported.Some? ==>
          && reported.value <= now
          && (c.emitted.Some? ==> c.emittedFrame == reported)
          && (c.previous.None? ==> c.count <= now - reported.value)
          && (c.emitted.None? ==> now - reported.value >= s.clear + if c.previous.Some? then c.count else 0))
  }

  lemma RemembersStep(s: Settings, guard: int, frame: int, c: Cell2, v: Value, reported: Option<int>)
    requires s.Valid() && Remembers(s, c, reported, frame - 1)
    ensures Remembers(s, Advance2(s, guard, frame, c, v),
                      if Reports2(s, guard, frame, c, v) then Some(frame) else reported, frame)
    ensures Reports2(s, guard, frame, c, v) && reported.Some? ==> Apart(s, guard, reported.value, frame)
  {
  }

  lemma {:induction false} LastEventAppend(events: seq<Event>, e: Event, slot: Slot)
    ensures LastEvent(events + [e], slot) == if e.slot == slot then Some(e.frame) else LastEvent(events, slot)
  {
    assert (events + [e])[..|events|] == events;
  }

  lemma {:induction false} LastEventBounds(events: seq<Event>, slot: Slot, i: int)
    requires 0 <= i < |events| && events[i].slot == slot
    requires forall a, b | 0 <= a < b < |events| :: events[a].frame <= events[b].frame
    ensures LastEvent(events, slot).Some? && events[i].frame <= LastEvent(events, slot).value
  {
    var n := |events| - 1;
    if i < n && events[n].slot != slot { LastEventBounds(events[..n], slot, i); }
  }

  predicate Chronological(events: seq<Event>, now: int)
  {
    && (forall a, b | 0 <= a < b < |events| :: events[a].frame <= events[b].frame)
    && (forall a | 0 <= a < |events| :: events[a].frame <= now)
  }

  ghost predicate Tracks(s: Settings, guard: int, cells: map<Slot, Cell2>, events: seq<Event>, now: int)
  {
    && Chronological(events, now) && Spaced(s, guard, events)
    && forall slot: Slot :: Remembers(s, CellAt(cells, slot, FRESH2), LastEvent(events, slot), now)
  }

  lemma {:induction false} TracksReport(s: Settings, guard: int, events: seq<Event>, e: Event)
    requires Chronological(events, e.frame) && Spaced(s, guard, events)
    requires LastEvent(events, e.slot).Some? ==> Apart(s, guard, LastEvent(events, e.slot).value, e.frame)
    ensures Chronological(events + [e], e.frame) && Spaced(s, guard, events + [e])
  {
    forall i | 0 <= i < |events| && events[i].slot == e.slot
      ensures Apart(s, guard, events[i].frame, e.frame)
    {
      LastEventBounds(events, e.slot, i);
    }
  }

  /** One reading of a seat not read before in this frame. */
  lemma TracksReading(s: Settings, guard: int, frame: int, c: Cell2, v: Value, slot: Slot, events: seq<Event>)
    requires s.Valid() && Chronological(events, frame) && Spaced(s, guard, events)
    requires Remembers(s, c, LastEvent(events, slot), frame - 1)
    ensures
      var events' := events + if Reports2(s, guard, frame, c, v) then [Event(frame, slot, v.value)] else [];
      && Chronological(events', frame) && Spaced(s, guard, events')
      && Remembers(s, Advance2(s, guard, frame, c, v), LastEvent(events', slot), frame)
      && forall other: Slot | other != slot :: LastEvent(events', other) == LastEvent(events, other)
  {
    RemembersStep(s, guard, frame, c, v, LastEvent(events, slot));
    if Reports2(s, guard, frame, c, v) {
      var e := Event(frame, slot, v.value);
      TracksReport(s, guard, events, e);
      forall other: Slot { LastEventAppend(events, e, other); }
    } else {
      assert events + [] == events;
    }
  }

  lemma ShowsSnoc(front: seq<Reading>, r: Reading, slot: Slot)
    ensures Shows(front + [r], slot) <==> Shows(front, slot) || slot == r.slot
  {
    var rs := front + [r];
    if Shows(front, slot) { var i :| 0 <= i < |front| && front[i].slot == slot; assert rs[i].slot == slot; }
    if slot == r.slot { assert rs[|front|].slot == slot; }
  }

  /** A seat already read in this frame is up to date; the others are as the previous frame left them. */
  predicate SeatTracked(s: Settings, slot: Slot, seen: bool, cells: map<Slot, Cell2>, events: seq<Event>, frame: int)
  {
    Remembers(s, CellAt(cells, slot, FRESH2), LastEvent(events, slot), if seen then frame else frame - 1)
  }

  ghost predicate SweepTracked(
      s: Settings, guard: int, frame: int, rs: seq<Reading>, cells: map<Slot, Cell2>, events: seq<Event>)
  {
    && Chronological(events, frame) && Spaced(s, guard, events)
    && forall slot: Slot :: SeatTracked(s, slot, Shows(rs, slot), cells, events, frame)
  }

  lemma SweepTrackedSnoc(
      s: Settings, guard: int, frame: int, front: seq<Reading>, r: Reading, cells: map<Slot, Cell2>, events: seq<Event>)
    requires s.Valid() && !Shows(front, r.slot) && SweepTracked(s, guard, frame, front, cells, events)
    ensures
      var c := CellAt(cells, r.slot, FRESH2);
      SweepTracked(s, guard, frame, front + [r], cells[r.slot := Advance2(s, guard, frame, c, r.value)],
                   events + if Reports2(s, guard, frame, c, r.value) then [Event(frame, r.slot, r.value.value)] else [])
  {
    var c := CellAt(cells, r.slot, FRESH2);
    assert SeatTracked(s, r.slot, false, cells, events, frame);
    TracksReading(s, guard, frame, c, r.value, r.slot, events);
    var cells' := cells[r.slot := Advance2(s, guard, frame, c, r.value)];
    var events' := events + if Reports2(s, guard, frame, c, r.value) then [Event(frame, r.slot, r.value.value)] else [];
    forall slot: Slot
      ensures SeatTracked(s, slot, Shows(front + [r], slot), cells', events', frame)
    {
      ShowsSnoc(front, r, slot);
      assert SeatTracked(s, slot, Shows(front, slot), cells, events, frame);
    }
  }

  lemma {:induction false} SweepTracks(
      s: Settings, guard: int, frame: int, cells: map<Slot, Cell2>, rs: seq<Reading>, events: seq<Event>)
    requires s.Valid() && DistinctSlots(rs) && SweepTracked(s, guard, frame, [], cells, events)
    ensures SweepTracked(s, guard, frame, rs, Cells2(s, guard, frame, cells, rs),
                         events + Events2(s, guard, frame, cells, rs))
  {
    if rs == [] {
      assert events + [] == events;
    } else {
      var front, r := rs[..|rs| - 1], rs[|rs| - 1];
      SweepTracks(s, guard, frame, cells, front, events);
      var midCells, new2 := Cells2(s, guard, frame, cells, front), Events2(s, guard, frame, cells, front);
      var c := CellAt(midCells, r.slot, FRESH2);
      var e := if Reports2(s, guard, frame, c, r.value) then [Event(frame, r.slot, r.value.value)] else [];
      var after := midCells[r.slot := Advance2(s, guard, frame, c, r.value)];
      assert !Shows(front, r.slot);
      SweepTrackedSnoc(s, guard, frame, front, r, midCells, events + new2);
      assert Cells2(s, guard, frame, cells, rs) == after && Events2(s, guard, frame, cells, rs) == new2 + e;
      assert events + (new2 + e) == (events + new2) + e;
      assert rs == front + [r];
    }
  }

  lemma SuspendTracks(s: Settings, guard: int, cells: map<Slot, Cell2>, events: seq<Event>, frame: int)
    requires Tracks(s, guard, cells, events, frame - 1)
    ensures Tracks(s, guard, Suspend(cells), events, frame)
  {
    hide Spaced;
    forall slot: Slot ensures Remembers(s, CellAt(Suspend(cells), slot, FRESH2), LastEvent(events, slot), frame) {
      assert Remembers(s, CellAt(cells, slot, FRESH2), LastEvent(events, slot), frame - 1);
    }
  }

  lemma FrameTracks(s: Settings, guard: int, cells: map<Slot, Cell2>, events: seq<Event>, frame: int, rs: seq<Reading>)
    requires s.Valid() && DistinctSlots(rs) && Tracks(s, guard, cells, events, frame - 1)
    ensures Tracks(s, guard, Cells2(s, guard, frame, cells, rs), events + Events2(s, guard, frame, cells, rs), frame)
  {
    hide Spaced, Cells2, Events2;
    forall slot: Slot ensures SeatTracked(s, slot, Shows([], slot), cells, events, frame) {
      assert Remembers(s, CellAt(cells, slot, FRESH2), LastEvent(events, slot), frame - 1);
    }
    SweepTracks(s, guard, frame, cells, rs, events);
    var after, all := Cells2(s, guard, frame, cells, rs), events + Events2(s, guard, frame, cells, rs);
    forall slot: Slot ensures Remembers(s, CellAt(after, slot, FRESH2), LastEvent(all, slot), frame) {
      assert SeatTracked(s, slot, Shows(rs, slot), after, all, frame);
    }
  }

  /**
   Over any uninterrupted stretch of frames, two V2 events of one seat are more than the guard apart,
   or far enough apart for a full stable clear and a full re-confirmation.
   */
  lemma {:induction false} V2EventsSpaced(s: Settings, guard: int, rows: seq<Row>)
    requires s.Valid() && Gapless(rows) && forall i | 0 <= i < |rows| :: DistinctSlots(rows[i].values)
    ensures !Run2(s, guard, rows).raised
    ensures rows != [] ==> Run2(s, guard, rows).machine.last == Some(rows[|rows| - 1].frame)
    ensures rows != [] ==>
      Tracks(s, guard, Run2(s, guard, rows).machine.cells, Run2(s, guard, rows).events, rows[|rows| - 1].frame)
    ensures Spaced(s, guard, Run2(s, guard, rows).events)
  {
    if rows != [] {
      var front, row := rows[..|rows| - 1], rows[|rows| - 1];
      V2EventsSpaced(s, guard, front);
      var before := Run2(s, guard, front);
      var cells := Carried(before.machine, row.frame);
      assert Tracks(s, guard, cells, before.events, row.frame - 1);
      hide Remembers, Spaced, Chronological, Cells2, Events2, Suspend, LastEvent;
      if row.suspended {
        assert before.events + [] == before.events;
        SuspendTracks(s, guard, cells, before.events, row.frame);
      } else {
        FrameTracks(s, guard, cells, before.events, row.frame, row.values);
      }
    }
  }

  // ---------------------------------------------------------------- the regression's order check

  /** One shared iterator over `full`: each item of `subset` resumes where the previous search stopped. */
  method IsSubsequence(full: seq<Event>, subset: seq<Event>) returns (r: bool)
    ensures r <==> Subsequence(subset, full)
  {
    var cursor, item := 0, 0;
    assert full[0..] == full && subset[0..] == subset;
    while item < |subset|
      invariant 0 <= cursor <= |full| && 0 <= item <= |subset|
      invariant Subsequence(subset, full) <==> Subsequence(subset[item..], full[cursor..])
      decreases |subset| - item
    {
      var found := false;
      while cursor < |full| && !found
        invariant 0 <= cursor <= |full|
        invariant Subsequence(subset, full) <==>
                  Subsequence(if found then subset[item + 1..] else subset[item..], full[cursor..])
        decreases |full| - cursor, !found
      {
        assert full[cursor..][1..] == full[cursor + 1..] && subset[item..][1..] == subset[item + 1..];
        found := full[cursor] == subset[item];
        cursor := cursor + 1;
      }
      if !found { return false; }
      item := item + 1;
    }
    r := true;
  }
}

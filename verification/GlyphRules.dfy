/**
 When the guarded glyph machine reports: the closed form of a steady reading, seat by seat and over whole recordings.
 */
module GlyphRules {
  import opened Common
  import opened Glyphs

  // ---------------------------------------------------------------- one frame

  /** The reading of a seat in a frame. */
  predicate Reads(rs: seq<Reading>, slot: Slot, v: Value)
  {
    exists i :: 0 <= i < |rs| && rs[i].slot == slot && rs[i].value == v
  }

  /**
   Within one frame each seat is advanced once, by its own reading and from its own memory; seats without a reading keep
   theirs; and the events are exactly those of the seats whose reading is reported.
   */
  lemma {:induction false} SeatsExactly(
      s: Settings, guard: int, frame: int, cells: map<Slot, Cell2>, rs: seq<Reading>, slot: Slot)
    requires DistinctSlots(rs)
    ensures var after := Cells2(s, guard, frame, cells, rs);
      && (slot in after <==> slot in cells || Shows(rs, slot))
      && (!Shows(rs, slot) ==> CellAt(after, slot, FRESH2) == CellAt(cells, slot, FRESH2))
      && (forall v | Reads(rs, slot, v) ::
            CellAt(after, slot, FRESH2) == Advance2(s, guard, frame, CellAt(cells, slot, FRESH2), v))
    ensures forall e :: e in Events2(s, guard, frame, cells, rs) && e.slot == slot <==>
      e == Event(frame, slot, e.glyph) && Reads(rs, slot, Some(e.glyph))
      && Reports2(s, guard, frame, CellAt(cells, slot, FRESH2), Some(e.glyph))
  {
    if rs != [] {
      var front, r := rs[..|rs| - 1], rs[|rs| - 1];
      SeatsExactly(s, guard, frame, cells, front, slot);
      assert rs == front + [r];
      ShowsSnoc(front, r, slot);
      forall v ensures Reads(rs, slot, v) <==> Reads(front, slot, v) || (r.slot == slot && r.value == v) {
        ReadsSnoc(front, r, slot, v);
      }
      assert r.slot == slot ==> !Shows(front, slot);
      forall v ensures Reads(front, slot, v) ==> Shows(front, slot) {}
      hide Advance2, Reports2, Shows, Reads;
    }
  }

  lemma ReadsSnoc(front: seq<Reading>, r: Reading, slot: Slot, v: Value)
    ensures Reads(front + [r], slot, v) <==> Reads(front, slot, v) || (r.slot == slot && r.value == v)
  {
    var rs := front + [r];
    if Reads(front, slot, v) {
      var i :| 0 <= i < |front| && front[i].slot == slot && front[i].value == v;
      assert rs[i].slot == slot && rs[i].value == v;
    }
    if r.slot == slot && r.value == v { assert rs[|front|].slot == slot && rs[|front|].value == v; }
  }

  // ---------------------------------------------------------------- a steady reading

  /** The memory of a seat that shows the same for `n` frames from `first` on. */
  function Steady(s: Settings, guard: int, c: Cell2, first: int, v: Value, n: nat): Cell2
  {
    if n == 0 then c else Advance2(s, guard, first + n - 1, Steady(s, guard, c, first, v, n - 1), v)
  }

  /** The latest report of the seat was not followed by a clear and lies within the guard of this frame. */
  predicate Guarded(guard: int, frame: int, c: Cell2)
  {
    c.emitted.Some? && c.emittedFrame.Some? && frame <= c.emittedFrame.value + guard
  }

  /**
   A glyph shown from `first` on is decided at its `stable`-th frame and never before or after: unless it is the one
   confirmed last, or was rejected since the last clear, it is rejected within the guard and confirmed outside it.
   */
  lemma {:induction false} GlyphExactly(s: Settings, guard: int, c: Cell2, first: int, glyph: string, n: nat)
    requires s.Valid() && c.previous != Some(glyph) && n >= 1
    ensures var v, decided := Some(glyph), first + s.stable - 1;
      var after := Steady(s, guard, c, first, v, n);
      && after.previous == v && after.count == n
      && (n < s.stable || c.emitted == v || c.suppressed == v ==>
            after.emitted == c.emitted && after.emittedFrame == c.emittedFrame && after.suppressed == c.suppressed)
      && (n >= s.stable && c.emitted != v && c.suppressed != v ==>
            if Guarded(guard, decided, c)
            then after.suppressed == v && after.emitted == c.emitted && after.emittedFrame == c.emittedFrame
            else after.emitted == v && after.emittedFrame == Some(decided) && after.suppressed == None)
  {
    if n > 1 { GlyphExactly(s, guard, c, first, glyph, n - 1); }
  }

  /** Correspondingly, it is reported at that frame only, and exactly when it is confirmed there. */
  lemma ReportedExactly(s: Settings, guard: int, c: Cell2, first: int, glyph: string, n: nat)
    requires s.Valid() && c.previous != Some(glyph) && n >= 1
    ensures Reports2(s, guard, first + n - 1, Steady(s, guard, c, first, Some(glyph), n - 1), Some(glyph)) <==>
      n == s.stable && c.emitted != Some(glyph) && c.suppressed != Some(glyph) && !Guarded(guard, first + n - 1, c)
  {
    if n > 1 { GlyphExactly(s, guard, c, first, glyph, n - 1); }
  }

  /** Nothing shown for `clear` frames forgets the confirmed and the rejected glyph, and for fewer keeps both. */
  lemma {:induction false} ClearExactly(s: Settings, guard: int, c: Cell2, first: int, n: nat)
    requires s.Valid() && c.previous.Some? && n >= 1
    ensures var after := Steady(s, guard, c, first, None, n);
      && after.previous == None && after.count == n
      && (if n >= s.clear && c.emitted.Some? then after.emitted == None && after.suppressed == None
          else after.emitted == c.emitted && after.suppressed == c.suppressed)
  {
    if n > 1 { ClearExactly(s, guard, c, first, n - 1); }
  }

  // ---------------------------------------------------------------- whole recordings

  /** From row `i` on, `n` frames follow each other without overlay and show the seat alike. */
  predicate Showing(rows: seq<Row>, i: int, n: int, slot: Slot, v: Value)
  {
    && 0 <= i && 1 <= n && i + n <= |rows|
    && forall t | i <= t < i + n ::
         rows[t].frame == rows[i].frame + (t - i) && !rows[t].suspended && DistinctSlots(rows[t].values)
         && Reads(rows[t].values, slot, v)
  }

  function Before(s: Settings, guard: int, rows: seq<Row>, i: nat): Run<Cell2>
    requires i <= |rows|
  {
    Run2(s, guard, rows[..i])
  }

  /** What the seat remembers when row `i` is read; a gap before the row forgets everything. */
  function MemoryAt(s: Settings, guard: int, rows: seq<Row>, i: nat, slot: Slot): Cell2
    requires i < |rows|
  {
    CellAt(Carried(Before(s, guard, rows, i).machine, rows[i].frame), slot, FRESH2)
  }

  /** Row `t` makes the machine report the glyph for the seat. */
  predicate ReportedAt(s: Settings, guard: int, rows: seq<Row>, t: nat, slot: Slot, glyph: string)
    requires t < |rows|
  {
    Before(s, guard, rows, t + 1).events == Before(s, guard, rows, t).events + NewEvents(s, guard, rows, t)
    && Event(rows[t].frame, slot, glyph) in NewEvents(s, guard, rows, t)
  }

  function NewEvents(s: Settings, guard: int, rows: seq<Row>, t: nat): seq<Event>
    requires t < |rows|
  {
    var a, b := Before(s, guard, rows, t).events, Before(s, guard, rows, t + 1).events;
    if |a| <= |b| then b[|a|..] else []
  }

  lemma RowExactly(s: Settings, guard: int, rows: seq<Row>, t: nat, slot: Slot, v: Value)
    requires t < |rows| && !Before(s, guard, rows, t).raised
    requires !Backwards(Before(s, guard, rows, t).machine, rows[t].frame)
    requires !rows[t].suspended && DistinctSlots(rows[t].values) && Reads(rows[t].values, slot, v)
    ensures var next, c := Before(s, guard, rows, t + 1), MemoryAt(s, guard, rows, t, slot);
      && !next.raised && next.machine.last == Some(rows[t].frame)
      && CellAt(next.machine.cells, slot, FRESH2) == Advance2(s, guard, rows[t].frame, c, v)
      && (forall glyph | v == Some(glyph) ::
            ReportedAt(s, guard, rows, t, slot, glyph) <==> Reports2(s, guard, rows[t].frame, c, v))
  {
    assert rows[..t + 1][..t] == rows[..t];
    var before, row := Before(s, guard, rows, t), rows[t];
    var cells := Carried(before.machine, row.frame);
    SeatsExactly(s, guard, row.frame, cells, row.values, slot);
    hide Advance2, Reports2, Cells2, Events2, DistinctSlots, Reads;
    var made := Events2(s, guard, row.frame, cells, row.values);
    assert Before(s, guard, rows, t + 1).events == before.events + made;
    assert NewEvents(s, guard, rows, t) == made;
  }

  lemma {:induction false} ShowingExactly(s: Settings, guard: int, rows: seq<Row>, i: nat, n: nat, slot: Slot, v: Value)
    requires Showing(rows, i, n, slot, v) && !Before(s, guard, rows, i).raised
    requires !Backwards(Before(s, guard, rows, i).machine, rows[i].frame)
    ensures var next, c := Before(s, guard, rows, i + n), MemoryAt(s, guard, rows, i, slot);
      && !next.raised && next.machine.last == Some(rows[i].frame + n - 1)
      && CellAt(next.machine.cells, slot, FRESH2) == Steady(s, guard, c, rows[i].frame, v, n)
      && (forall glyph | v == Some(glyph) ::
            ReportedAt(s, guard, rows, i + n - 1, slot, glyph) <==>
            Reports2(s, guard, rows[i].frame + n - 1, Steady(s, guard, c, rows[i].frame, v, n - 1), v))
  {
    hide Advance2, Reports2, ReportedAt, Before, Reads, DistinctSlots;
    if n > 1 { ShowingExactly(s, guard, rows, i, n - 1, slot, v); }
    RowExactly(s, guard, rows, i + n - 1, slot, v);
  }

  /**
   On every recording: a glyph that starts to show at row `i` and stays is reported at its `stable`-th frame and at no
   other, exactly when the seat has not confirmed it already, has not rejected it since its last clear, and confirmed
   nothing else within the guard.
   */
  lemma ChangeIsReported(s: Settings, guard: int, rows: seq<Row>, i: nat, n: nat, slot: Slot, glyph: string)
    requires s.Valid() && Showing(rows, i, n, slot, Some(glyph)) && !Before(s, guard, rows, i).raised
    requires !Backwards(Before(s, guard, rows, i).machine, rows[i].frame)
    requires MemoryAt(s, guard, rows, i, slot).previous != Some(glyph)
    ensures var c := MemoryAt(s, guard, rows, i, slot);
      ReportedAt(s, guard, rows, i + n - 1, slot, glyph) <==>
        n == s.stable && c.emitted != Some(glyph) && c.suppressed != Some(glyph)
        && !Guarded(guard, rows[i].frame + n - 1, c)
  {
    hide Reports2, ReportedAt, Before, Guarded, Reads, DistinctSlots;
    ShowingExactly(s, guard, rows, i, n, slot, Some(glyph));
    ReportedExactly(s, guard, MemoryAt(s, guard, rows, i, slot), rows[i].frame, glyph, n);
  }

  // ---------------------------------------------------------------- re-arming

  /** Without a confirmed glyph there is no rejected one. */
  ghost predicate SaneCells(cells: map<Slot, Cell2>)
  {
    forall slot | slot in cells :: cells[slot].emitted.None? ==> cells[slot].suppressed.None?
  }

  lemma {:induction false} SweepSane(s: Settings, guard: int, frame: int, cells: map<Slot, Cell2>, rs: seq<Reading>)
    requires s.Valid() && SaneCells(cells)
    ensures SaneCells(Cells2(s, guard, frame, cells, rs))
  {
    if rs != [] { SweepSane(s, guard, frame, cells, rs[..|rs| - 1]); }
  }

  lemma {:induction false} RunSane(s: Settings, guard: int, rows: seq<Row>)
    requires s.Valid()
    ensures SaneCells(Run2(s, guard, rows).machine.cells)
  {
    if rows != [] {
      var front, row := rows[..|rows| - 1], rows[|rows| - 1];
      RunSane(s, guard, front);
      SweepSane(s, guard, row.frame, Carried(Run2(s, guard, front).machine, row.frame), row.values);
    }
  }

  lemma {:induction false} ClearsWhatever(s: Settings, guard: int, c: Cell2, first: int, n: nat)
    requires s.Valid() && n >= 1 && (c.emitted.None? ==> c.suppressed.None?)
    ensures var after := Steady(s, guard, c, first, None, n);
      && after.previous == None && after.count >= n && (after.emitted.None? ==> after.suppressed.None?)
      && (n >= s.clear ==> after.emitted == None)
  {
    if n > 1 { ClearsWhatever(s, guard, c, first, n - 1); }
  }

  /** On every recording: a glyph that stays for `stable` frames after a full clear is reported at the last of them. */
  lemma ClearedIsReported(s: Settings, guard: int, rows: seq<Row>, i: nat, slot: Slot, glyph: string)
    requires s.Valid() && Showing(rows, i, s.clear, slot, None) && !Before(s, guard, rows, i).raised
    requires !Backwards(Before(s, guard, rows, i).machine, rows[i].frame)
    requires Showing(rows, i + s.clear, s.stable, slot, Some(glyph))
      && rows[i + s.clear].frame == rows[i].frame + s.clear
    ensures ReportedAt(s, guard, rows, i + s.clear + s.stable - 1, slot, glyph)
  {
    hide Advance2, Reports2, ReportedAt, Reads, DistinctSlots, Steady, SaneCells, Run2;
    var j := i + s.clear;
    var c := MemoryAt(s, guard, rows, i, slot);
    ShowingExactly(s, guard, rows, i, s.clear, slot, None);
    assert c.emitted.None? ==> c.suppressed.None? by {
      hide *;
      SaneMemory(s, guard, rows, i, slot);
    }
    ClearsWhatever(s, guard, c, rows[i].frame, s.clear);
    assert MemoryAt(s, guard, rows, j, slot) == Steady(s, guard, c, rows[i].frame, None, s.clear);
    ChangeIsReported(s, guard, rows, j, s.stable, slot, glyph);
  }

  lemma SaneMemory(s: Settings, guard: int, rows: seq<Row>, i: nat, slot: Slot)
    requires s.Valid() && i < |rows|
    ensures var c := MemoryAt(s, guard, rows, i, slot); c.emitted.None? ==> c.suppressed.None?
  {
    hide Run2;
    RunSane(s, guard, rows[..i]);
  }

  // ---------------------------------------------------------------- overlays and gaps

  /**
   An overlay reports nothing and ends every streak, but the confirmed and the rejected glyph of each seat stay; a gap
   between frames forgets those too.
   */
  lemma OverlayExactly(s: Settings, guard: int, m: Machine<Cell2>, frame: int, rs: seq<Reading>, slot: Slot)
    requires m.last.Some? ==> frame > m.last.value
    ensures var r := Observe2(s, guard, m, frame, rs, true);
      && r.Ok? && r.value.1 == [] && r.value.0.last == Some(frame)
      && var c := CellAt(r.value.0.cells, slot, FRESH2);
         && c.previous == None && c.count == 0
         && (if m.last.Some? && frame == m.last.value + 1 && slot in m.cells
             then c.emitted == m.cells[slot].emitted && c.suppressed == m.cells[slot].suppressed
                  && c.emittedFrame == m.cells[slot].emittedFrame
             else c.emitted == None && c.suppressed == None)
  {}

  // ---------------------------------------------------------------- the unguarded machine

  /** The first machine: each seat is advanced once by its own reading, and reports as its own memory says. */
  lemma {:induction false} SeatsExactly1(
      s: Settings, frame: int, cells: map<Slot, Cell1>, rs: seq<Reading>, slot: Slot)
    requires DistinctSlots(rs)
    ensures var after := Cells1(s, cells, rs);
      && (slot in after <==> slot in cells || Shows(rs, slot))
      && (!Shows(rs, slot) ==> CellAt(after, slot, FRESH1) == CellAt(cells, slot, FRESH1))
      && (forall v | Reads(rs, slot, v) ::
            CellAt(after, slot, FRESH1) == Advance1(s, CellAt(cells, slot, FRESH1), v))
    ensures forall e :: e in Events1(s, frame, cells, rs) && e.slot == slot <==>
      e == Event(frame, slot, e.glyph) && Reads(rs, slot, Some(e.glyph))
      && Reports1(s, CellAt(cells, slot, FRESH1), Some(e.glyph))
  {
    if rs != [] {
      var front, r := rs[..|rs| - 1], rs[|rs| - 1];
      SeatsExactly1(s, frame, cells, front, slot);
      assert rs == front + [r];
      ShowsSnoc(front, r, slot);
      forall v ensures Reads(rs, slot, v) <==> Reads(front, slot, v) || (r.slot == slot && r.value == v) {
        ReadsSnoc(front, r, slot, v);
      }
      assert r.slot == slot ==> !Shows(front, slot);
      forall v ensures Reads(front, slot, v) ==> Shows(front, slot) {}
      hide Advance1, Reports1, Shows, Reads;
    }
  }

  function Steady1(s: Settings, c: Cell1, v: Value, n: nat): Cell1
  {
    if n == 0 then c else Advance1(s, Steady1(s, c, v, n - 1), v)
  }

  /**
   It reports a new glyph at its `stable`-th frame, whatever came before, and forgets it after `clear` empty frames.
   */
  lemma {:induction false} SteadyExactly1(s: Settings, c: Cell1, v: Value, n: nat)
    requires s.Valid() && c.previous != v && n >= 1
    ensures var after := Steady1(s, c, v, n);
      && after.previous == v && after.count == n
      && after.emitted == if n >= (if v.Some? then s.stable else s.clear) then v else c.emitted
    ensures Reports1(s, Steady1(s, c, v, n - 1), v) <==> v.Some? && n == s.stable && c.emitted != v
  {
    if n > 1 { SteadyExactly1(s, c, v, n - 1); }
  }

  /** Both machines refuse exactly the frames that are not later than the last one. */
  lemma RefusedExactly(
      s: Settings, guard: int, m1: Machine<Cell1>, m2: Machine<Cell2>, frame: int, rs: seq<Reading>, suspended: bool)
    ensures Observe1(s, m1, frame, rs) == Raised(DuplicateOrBackwardsFrame) <==> m1.last.Some? && frame <= m1.last.value
    ensures Observe2(s, guard, m2, frame, rs, suspended) == Raised(DuplicateOrBackwardsFrame) <==>
      m2.last.Some? && frame <= m2.last.value
    ensures Observe1(s, m1, frame, rs).Ok? ==> Observe1(s, m1, frame, rs).value.0.last == Some(frame)
    ensures Observe2(s, guard, m2, frame, rs, suspended).Ok? ==>
      Observe2(s, guard, m2, frame, rs, suspended).value.0.last == Some(frame)
  {}
}

/**
 What one clear frame does with money and glyphs, said of the rows the adapter was shown.
 */
module FrameRules {
  import opened Common
  import opened StateAdapter
  import opened AdapterRuns
  import opened AdapterWitness
  import opened EpochRules

  /** The pot stood still for two frames and stands still, higher, for two more. */
  predicate PotRose(all: seq<Row>)
  {
    Steady(all, 4) &&
    var a, b, c, d := all[|all| - 4].pot, all[|all| - 3].pot, all[|all| - 2].pot, all[|all| - 1].pot;
    a.Some? && a == b && c.Some? && c == d && a.value >= 0.0 && c.value > a.value
  }

  function PotRise(all: seq<Row>): seq<PotChange>
  {
    if PotRose(all)
    then [PotChange(all[|all| - 2].frame, all[|all| - 1].frame, all[|all| - 1].pot.value - all[|all| - 3].pot.value)]
    else []
  }

  lemma PotExactly(history: seq<Row>, rows: seq<Row>, row: Row)
    requires Carried(history, rows, row) && Clear(row)
    ensures PotStep(history, row) == PotRise(rows + [row])
  {
    var n, all := |history|, rows + [row];
    assert n + 1 >= 4 <==> Steady(all, 4);
    hide Steady;
    if n >= 3 {
      assert history[n - 3] == all[|all| - 4] && history[n - 2] == all[|all| - 3] && history[n - 1] == all[|all| - 2];
    }
    assert all[|all| - 1] == row;
  }

  /** A new epoch forgets the money and the glyphs gathered before it; nothing else does. */
  predicate Forgets(before: Adapter, after: Adapter)
  {
    && after.actions == before.actions && after.window == before.window
    && (if after.epochEvents != before.epochEvents
        then after.cash == [] && after.potChanges == [] && after.pending == [] && after.usedCash == {}
          && after.epoch.Some?
        else after.cash == before.cash && after.potChanges == before.potChanges && after.pending == before.pending
             && after.usedCash == before.usedCash && after.epoch == before.epoch)
  }

  lemma EpochForgets(s: Adapter, frame: int, first: int, status: EpochStatus, posting: Option<Posting>)
    ensures Forgets(s, NewEpoch(s, frame, first, status, posting))
  {
    assert |NewEpoch(s, frame, first, status, posting).epochEvents| == |s.epochEvents| + 1;
  }

  lemma ConfirmForgets(c: Adapter, row: Row)
    ensures Forgets(c, ConfirmHand(c, row))
  {
    hide ZeroPotDeal;
    if c.pendingHand.Some? {
      EpochForgets(c, row.frame, c.pendingHand.value.first, MultiPostDeal, Some(c.pendingHand.value.comparison));
    }
    hide NewEpoch;
  }

  lemma DealForgets(c: Adapter, row: Row)
    ensures Forgets(c, FollowDeal(c, row))
  {
    hide PostingComparison, ZeroPotDeal, DealSpot, ConfirmHand, NewEpoch;
    var counted := c.(dealStreak := if DealSpot(row) then c.dealStreak + 1 else 0);
    ConfirmForgets(counted, row);
    var e := ConfirmHand(counted, row);
    var f := ProposeHand(e, row);
    assert f == e.(pendingHand := f.pendingHand);
    hide ProposeHand;
    EpochForgets(f, row.frame, row.frame - 1, UnanchoredDeal, None);
  }

  lemma Arrived(s: Adapter, glyphs: seq<Glyph>, epoch: Option<int>, street: Option<Street>)
    requires s.epoch == epoch && s.street == street
    ensures |Arrivals(s, glyphs)| == |glyphs|
    ensures forall i | 0 <= i < |glyphs| ::
      Arrivals(s, glyphs)[i] == Pending(glyphs[i].frame, glyphs[i].slot, glyphs[i].glyph, epoch, street)
  {}

  /** What is gathered before the frame, unless a gap or a new epoch has dropped it. */
  predicate Kept(s: Adapter, rows: seq<Row>, row: Row, next: Adapter)
  {
    InSequence(rows, row) && next.epochEvents == s.epochEvents
  }

  /**
   The state the glyphs of a frame are judged by: the money seen so far and the glyphs waiting, this frame's included.
   */
  ghost predicate Gathered(s: Adapter, rows: seq<Row>, row: Row, next: Adapter, p: Adapter)
  {
    var kept, n := Kept(s, rows, row, next), |row.glyphs|;
    && p.window == s.window && p.actions == s.actions
    && p.cash == (if kept then s.cash else []) + row.drops
    && p.potChanges == (if kept then s.potChanges else []) + PotRise(rows + [row])
    && p.usedCash == (if kept then s.usedCash else {})
    && |p.pending| >= n && p.pending[..|p.pending| - n] == (if kept then s.pending else [])
    && forall i | 0 <= i < n ::
         var g := row.glyphs[i];
         p.pending[|p.pending| - n + i] == Pending(g.frame, g.slot, g.glyph, next.epoch, next.street)
  }

  /**
   A clear frame first gathers its money and glyphs, then lets every waiting glyph have its turn in order of arrival,
   and last publishes a short call that showed no glyph.
   */
  lemma FrameExactly(window: int, rows: seq<Row>, row: Row) returns (p: Adapter)
    requires AllAccepted(Initial(window), rows) && !BadFrame(Run(Initial(window), rows), row) && Clear(row)
    ensures var s := Run(Initial(window), rows);
      var next, settled := Advance(s, row), ResolveAll(p, row.frame, p.pending);
      && Gathered(s, rows, row, next, p)
      && next.pending == settled.pending && next.usedCash == settled.usedCash && next.cash == p.cash
      && next.potChanges == p.potChanges && next.window == s.window
      && next.actions == settled.actions +
           (if row.shortCall.None? then []
            else [Action(row.shortCall.value.frame, row.shortCall.value.actor, Call, None, next.epoch, next.street,
                         row.frame, Some(row.shortCall.value.debit), None)])
  {
    var s := Run(Initial(window), rows);
    hide Run, AllAccepted;
    AlwaysExact(window, rows);
    assert !Blocked(row);
    p := WithGlyphs(Prepared(s, row), row);
    StepGathers(s, rows, row);
    StepSettles(s, rows, row);
  }

  /** The state after the street phase: what is kept, on the epoch and street of the frame. */
  predicate Begun(s: Adapter, rows: seq<Row>, row: Row, next: Adapter, f: Adapter)
  {
    var kept := Kept(s, rows, row, next);
    && f.window == s.window && f.actions == s.actions && f.epoch == next.epoch && f.street == next.street
    && f.cash == (if kept then s.cash else []) && f.potChanges == (if kept then s.potChanges else [])
    && f.pending == (if kept then s.pending else []) && f.usedCash == (if kept then s.usedCash else {})
  }

  /** What the money and glyph phases add to it. */
  predicate Extends(f: Adapter, row: Row, rise: seq<PotChange>, p: Adapter)
  {
    var n := |row.glyphs|;
    && p.window == f.window && p.actions == f.actions && p.cash == f.cash + row.drops
    && p.potChanges == f.potChanges + rise && p.usedCash == f.usedCash
    && |p.pending| == |f.pending| + n && p.pending[..|p.pending| - n] == f.pending
    && forall i | 0 <= i < n ::
         var g := row.glyphs[i];
         p.pending[|f.pending| + i] == Pending(g.frame, g.slot, g.glyph, f.epoch, f.street)
  }

  lemma AddedToFrame(f: Adapter, row: Row)
    ensures Extends(f, row, PotStep(f.history, row), WithGlyphs(FollowCash(f, row), row))
  {
    hide PotStep;
    var c := FollowCash(f, row);
    Arrived(c, row.glyphs, f.epoch, f.street);
    hide Arrivals;
    var p := WithGlyphs(c, row);
    assert p.pending == f.pending + Arrivals(c, row.glyphs);
    assert p.pending[..|f.pending|] == f.pending;
  }

  lemma BegunExtends(s: Adapter, rows: seq<Row>, row: Row, next: Adapter, f: Adapter, p: Adapter)
    requires Begun(s, rows, row, next, f) && Extends(f, row, PotRise(rows + [row]), p)
    ensures Gathered(s, rows, row, next, p)
  {
    hide PotRise, Kept;
  }

  lemma StepBegins(s: Adapter, rows: seq<Row>, row: Row)
    requires Remembers(s, rows) && !BadFrame(s, row) && Clear(row)
    ensures Begun(s, rows, row, Advance(s, row), FollowStreet(FollowDeal(Cleared(s, row), row), row))
  {
    var c := Cleared(s, row);
    ClearedExactly(s, rows, row);
    DealForgets(c, row);
    StepStreets(s, rows, row);
    hide Advance, Cleared, FollowDeal, FollowStreet, PotStep, PotRise, Remembers, BadFrame, Clear;
  }

  lemma StepGathers(s: Adapter, rows: seq<Row>, row: Row)
    requires Remembers(s, rows) && !BadFrame(s, row) && Clear(row)
    ensures Gathered(s, rows, row, Advance(s, row), WithGlyphs(Prepared(s, row), row))
  {
    var f := FollowStreet(FollowDeal(Cleared(s, row), row), row);
    StepBegins(s, rows, row);
    StepStreets(s, rows, row);
    AddedToFrame(f, row);
    assert Prepared(s, row) == FollowCash(f, row);
    hide Begun, Extends, Gathered, Advance, Cleared, FollowDeal, FollowStreet, PotStep, PotRise, Remembers, BadFrame,
      Clear, WithGlyphs, Prepared, FollowCash;
    BegunExtends(s, rows, row, Advance(s, row), f, WithGlyphs(Prepared(s, row), row));
  }

  lemma StepStreets(s: Adapter, rows: seq<Row>, row: Row)
    requires Remembers(s, rows) && !BadFrame(s, row) && Clear(row)
    ensures var d := FollowDeal(Cleared(s, row), row);
      var f, next := FollowStreet(d, row), Advance(s, row);
      && f.cash == d.cash && f.potChanges == d.potChanges && f.pending == d.pending && f.usedCash == d.usedCash
      && f.actions == d.actions && f.window == d.window && f.epoch == next.epoch && f.street == next.street
      && next.epochEvents == d.epochEvents && PotStep(f.history, row) == PotRise(rows + [row])
  {
    assert !Blocked(row);
    hide Blocked, BadFrame;
    RestShape(s, row);
    ClearedCarries(s, rows, row);
    var c := Cleared(s, row);
    var d := FollowDeal(c, row);
    hide Advance, Cleared, PotStep, PotRise, Remembers, Remember, Carried;
    DealFields(c, row);
    hide FollowDeal, ProposeHand, Dealing, FreshDeal;
    StreetFields(d, row);
    hide FollowStreet, Shows, BoardShown, CountOf;
    PotExactly(c.history, rows, row);
  }

  lemma StepSettles(s: Adapter, rows: seq<Row>, row: Row)
    requires Remembers(s, rows) && !BadFrame(s, row) && Clear(row)
    ensures var p, next := WithGlyphs(Prepared(s, row), row), Advance(s, row);
      var settled := ResolveAll(p, row.frame, p.pending);
      && next.pending == settled.pending && next.usedCash == settled.usedCash && next.cash == p.cash
      && next.potChanges == p.potChanges && next.window == s.window
      && next.actions == settled.actions +
           (if row.shortCall.None? then []
            else [Action(row.shortCall.value.frame, row.shortCall.value.actor, Call, None, next.epoch, next.street,
                         row.frame, Some(row.shortCall.value.debit), None)])
  {
    PreparedKeeps(s, row);
    hide Prepared, ResolveAll, Arrivals, Remembers, Remember;
    var p := WithGlyphs(Prepared(s, row), row);
    ResolvePass(p, row.frame, p.pending);
    hide Balanced;
    var settled := ResolveAll(p, row.frame, p.pending);
    assert settled == p.(pending := settled.pending, actions := settled.actions, usedCash := settled.usedCash);
    assert settled.actions + [] == settled.actions;
  }
}

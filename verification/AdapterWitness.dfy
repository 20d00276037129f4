/**
 What the adapter has really seen: a posted epoch rests on four adjacent frames, and a postflop street on two.
 */
module AdapterWitness {
  import opened Common
  import opened StateAdapter
  import opened AdapterRuns
  import opened HandRuns

  predicate AllAccepted(s: Adapter, rows: seq<Row>)
  {
    rows == [] || (AllAccepted(s, rows[..|rows| - 1]) && !BadFrame(Run(s, rows[..|rows| - 1]), rows[|rows| - 1]))
  }

  /** The remembered rows are the latest ones, one per frame, up to the last frame. */
  predicate Remembered(s: Adapter, rows: seq<Row>)
  {
    var n := |s.history|;
    && n <= 4 && n <= |rows| && s.history == rows[|rows| - n..]
    && (n > 0 ==> s.last == Some(s.history[n - 1].frame))
    && (forall i | 0 <= i < n :: s.history[i].frame == s.history[n - 1].frame - (n - 1 - i))
  }

  /** The proposal comes from the last remembered row, after two rows with one stack vector. */
  predicate Proposed(s: Adapter)
  {
    s.pendingHand.Some? ==>
      var n, p := |s.history|, s.pendingHand.value;
      && n >= 3 && ZeroPotDeal(s.history[n - 1]) && s.history[n - 1].stacks == p.stacks
      && s.history[n - 3].stacks == s.history[n - 2].stacks && s.history[n - 3].boardCount == Some(0)
      && s.history[n - 2].boardCount == Some(0)
      && PostingComparison(s.history[n - 2], s.history[n - 1]) == Some(p.comparison)
  }

  /** The geometry run counts adjacent latest rows that all show its board. */
  predicate Counted(s: Adapter, rows: seq<Row>)
  {
    s.geometryRun.Some? ==>
      var g, n := s.geometryRun.value, |rows|;
      && 1 <= g.streak <= n && s.last == Some(g.lastFrame)
      && forall i | n - g.streak <= i < n ::
           PositiveBoardGeometry(rows[i]) == Some(g.count) && rows[i].frame == g.lastFrame - (n - 1 - i)
  }

  predicate Seen(s: Adapter, rows: seq<Row>)
  {
    Remembered(s, rows) && Proposed(s) && Counted(s, rows)
  }

  /** The remembered rows end just before the coming frame. */
  predicate Preceding(history: seq<Row>, rows: seq<Row>, row: Row)
  {
    && |history| <= 4 && |history| <= |rows| && history == rows[|rows| - |history|..]
    && forall i | 0 <= i < |history| :: history[i].frame == row.frame - (|history| - i)
  }

  predicate RunBefore(run: Option<GeometryRun>, rows: seq<Row>, row: Row)
  {
    run.Some? ==>
      var g, n := run.value, |rows|;
      && g.lastFrame == row.frame - 1 && 1 <= g.streak <= n
      && forall i | n - g.streak <= i < n ::
           PositiveBoardGeometry(rows[i]) == Some(g.count) && rows[i].frame == g.lastFrame - (n - 1 - i)
  }

  lemma ClearedSeen(s: Adapter, rows: seq<Row>, row: Row)
    requires Seen(s, rows) && !BadFrame(s, row)
    ensures
      var c := Cleared(s, row);
      Preceding(c.history, rows, row) && Proposed(c) && RunBefore(c.geometryRun, rows, row)
    ensures Blocked(row) ==>
      Cleared(s, row).history == [] && Cleared(s, row).pendingHand.None?
      && Cleared(s, row).geometryRun.None?
  {
    hide ZeroPotDeal, PostingComparison, PositiveBoardGeometry;
  }

  predicate ProposedBy(history: seq<Row>, row: Row, pending: Option<PendingHand>)
  {
    pending.Some? ==>
      var n := |history|;
      && n >= 2 && ZeroPotDeal(row) && pending.value.stacks == row.stacks
      && history[n - 2].stacks == history[n - 1].stacks && history[n - 2].boardCount == Some(0)
      && history[n - 1].boardCount == Some(0)
      && PostingComparison(history[n - 1], row) == Some(pending.value.comparison)
  }

  predicate RunNext(before: Option<GeometryRun>, row: Row, run: Option<GeometryRun>)
  {
    run.Some? ==>
      var g := run.value;
      && PositiveBoardGeometry(row) == Some(g.count) && g.lastFrame == row.frame
      && (g.streak == 1 || (before.Some? && before.value.count == g.count && before.value.lastFrame == row.frame - 1
                            && g.streak == before.value.streak + 1))
  }

  /** What the deal phase changes: the proposal, and perhaps one new epoch. */
  lemma DealShape(c: Adapter, row: Row)
    ensures var d := FollowDeal(c, row);
      && d.history == c.history && (d.geometryRun == c.geometryRun || d.geometryRun.None?)
      && ProposedBy(c.history, row, d.pendingHand)
  {
    hide ZeroPotDeal, PostingComparison;
  }

  lemma StreetShape(d: Adapter, row: Row)
    ensures var f := FollowStreet(d, row);
      && f == d.(street := f.street, boardSupported := f.boardSupported, geometryRun := f.geometryRun)
      && RunNext(d.geometryRun, row, f.geometryRun)
      && (f.street != d.street ==>
        f.geometryRun.Some? && f.geometryRun.value.streak >= 2
        && f.street == Some(StreetOf(f.geometryRun.value.count))
        && f.geometryRun.value.count >= CountOf(d.street))
  {
    hide PositiveBoardGeometry;
  }

  /** After the street phase the frame leaves street, geometry and proposal alone, and remembers its row. */
  lemma RestShape(s: Adapter, row: Row)
    requires !BadFrame(s, row) && !Blocked(row)
    ensures var f, next := FollowStreet(FollowDeal(Cleared(s, row), row), row), Advance(s, row);
      && next.street == f.street && next.geometryRun == f.geometryRun && next.pendingHand == f.pendingHand
      && next.history == Remember(f.history, row) && next.last == Some(row.frame) && next.epochEvents == f.epochEvents
      && next.dealStreak == f.dealStreak && next.boardSupported == f.boardSupported && next.epoch == f.epoch
  {
    DealDecidesEpochs(s, row);
    PreparedKeeps(s, row);
    hide FollowDeal, FollowStreet, PotStep, Cleared, ResolveAll, Arrivals;
    var f := FollowStreet(FollowDeal(Cleared(s, row), row), row);
    StreetShape(FollowDeal(Cleared(s, row), row), row);
    var p := WithGlyphs(Prepared(s, row), row);
    ResolvePass(p, row.frame, p.pending);
    hide Balanced, Remember;
    assert Settled(s, row) ==
      p.(pending := Settled(s, row).pending, actions := Settled(s, row).actions, usedCash := Settled(s, row).usedCash);
  }

  lemma StepSeen(s: Adapter, rows: seq<Row>, row: Row)
    requires Seen(s, rows) && !BadFrame(s, row)
    ensures Seen(Advance(s, row), rows + [row])
  {
    hide Remembered, Proposed, Counted, Preceding, RunBefore, ProposedBy, RunNext;
    ClearedSeen(s, rows, row);
    if Blocked(row) {
      assert Advance(s, row) == Cleared(s, row);
      BlockedSeen(Advance(s, row), rows + [row]);
    } else {
      hide Advance, FollowDeal, FollowStreet, Cleared, Remember, Blocked, BadFrame;
      var c := Cleared(s, row);
      var d, next := FollowDeal(c, row), Advance(s, row);
      RestShape(s, row);
      DealShape(c, row);
      StreetShape(d, row);
      RememberedNext(c.history, rows, row, next);
      assert RunBefore(d.geometryRun, rows, row) by { NoRun(rows, row); }
      CountedNext(rows, row, d.geometryRun, next);
      FewRows(c.history, rows, row);
      ProposedNext(c.history, row, next);
    }
  }

  lemma BlockedSeen(s: Adapter, rows: seq<Row>)
    requires s.history == [] && s.pendingHand.None? && s.geometryRun.None?
    ensures Seen(s, rows)
  {}

  lemma NoRun(rows: seq<Row>, row: Row)
    ensures RunBefore(None, rows, row)
  {}

  lemma FewRows(history: seq<Row>, rows: seq<Row>, row: Row)
    requires Preceding(history, rows, row)
    ensures |history| <= 4
  {}

  lemma RememberedNext(history: seq<Row>, rows: seq<Row>, row: Row, next: Adapter)
    requires Preceding(history, rows, row) && next.history == Remember(history, row) && next.last == Some(row.frame)
    ensures Remembered(next, rows + [row])
  {
    var n, h := |history|, next.history;
    if n == 4 {
      assert h == history[1..] + [row];
      assert (rows + [row])[|rows| + 1 - 4..] == rows[|rows| - 3..] + [row];
    } else {
      assert (rows + [row])[|rows| - n..] == rows[|rows| - n..] + [row];
    }
  }

  lemma CountedNext(rows: seq<Row>, row: Row, before: Option<GeometryRun>, next: Adapter)
    requires next.last == Some(row.frame) && RunBefore(before, rows, row) && RunNext(before, row, next.geometryRun)
    ensures Counted(next, rows + [row])
  {
    hide PositiveBoardGeometry;
    if next.geometryRun.Some? {
      var g, all := next.geometryRun.value, rows + [row];
      forall i | |all| - g.streak <= i < |all|
        ensures PositiveBoardGeometry(all[i]) == Some(g.count) && all[i].frame == g.lastFrame - (|all| - 1 - i)
      {
        if i < |rows| { assert all[i] == rows[i]; }
      }
    }
  }

  lemma ProposedNext(history: seq<Row>, row: Row, next: Adapter)
    requires |history| <= 4 && next.history == Remember(history, row) && ProposedBy(history, row, next.pendingHand)
    ensures Proposed(next)
  {
    hide ZeroPotDeal, PostingComparison;
    if next.pendingHand.Some? {
      var h, n := next.history, |next.history|;
      assert h[n - 1] == row && h[n - 2] == history[|history| - 1] && h[n - 3] == history[|history| - 2];
    }
  }

  lemma {:induction false} AlwaysSeen(window: int, rows: seq<Row>)
    requires AllAccepted(Initial(window), rows)
    ensures Seen(Run(Initial(window), rows), rows)
  {
    if rows == [] {
    } else {
      var init, row := rows[..|rows| - 1], rows[|rows| - 1];
      AlwaysSeen(window, init);
      hide Advance, Seen;
      StepSeen(Run(Initial(window), init), init, row);
      assert init + [row] == rows;
    }
  }

  // ---------------------------------------------------------------- the witnesses

  /**
   Four adjacent frames: two with the old stacks, two with the new ones, an empty board, and pot and deal cue of a deal
   in the last two.
   */
  predicate DealWitness(rows: seq<Row>, row: Row, posting: Option<Posting>)
  {
    var n := |rows|;
    n >= 3 &&
    var a, b, c := rows[n - 3], rows[n - 2], rows[n - 1];
    && a.frame == row.frame - 3 && b.frame == row.frame - 2 && c.frame == row.frame - 1
    && a.stacks == b.stacks && c.stacks == row.stacks && a.boardCount == Some(0) && b.boardCount == Some(0)
    && ZeroPotDeal(c) && ZeroPotDeal(row) && PostingComparison(b, c).Some? && posting == PostingComparison(b, c)
  }

  lemma ConfirmShape(c: Adapter, row: Row)
    ensures var d := FollowDeal(c, row);
      c.epochEvents < d.epochEvents && d.epochEvents[|d.epochEvents| - 1].status == MultiPostDeal ==>
        && c.pendingHand.Some? && ZeroPotDeal(row) && row.stacks == c.pendingHand.value.stacks
        && d.epochEvents == c.epochEvents
          + [EpochEvent(c.pendingHand.value.first, row.frame, MultiPostDeal, Some(c.pendingHand.value.comparison))]
  {
    hide ZeroPotDeal, PostingComparison;
    var counted := c.(dealStreak := if DealSpot(row) then c.dealStreak + 1 else 0);
    var e := ProposeHand(ConfirmHand(counted, row), row);
    assert e.epochEvents == ConfirmHand(counted, row).epochEvents;
    assert ConfirmHand(counted, row).epochEvents != c.epochEvents ==> e.epoch.Some?;
  }

  /**
   On every run, an epoch opened by a posting rests on four adjacent frames, and its posting compares the middle two.
   */
  lemma PostedEpochHasWitness(window: int, rows: seq<Row>, row: Row)
    requires AllAccepted(Initial(window), rows) && !BadFrame(Run(Initial(window), rows), row) && !Blocked(row)
    ensures var s := Run(Initial(window), rows);
      var next := Advance(s, row);
      s.epochEvents <= next.epochEvents
      && (s.epochEvents < next.epochEvents && next.epochEvents[|next.epochEvents| - 1].status == MultiPostDeal ==>
            |next.epochEvents| == |s.epochEvents| + 1
            && DealWitness(rows, row, next.epochEvents[|next.epochEvents| - 1].posting))
  {
    hide Run, Advance, FollowDeal, FollowStreet, Seen, AllAccepted, DealWitness, Blocked;
    AlwaysSeen(window, rows);
    var s := Run(Initial(window), rows);
    ActionsOnlyGrow(s, row);
    RestShape(s, row);
    StreetShape(FollowDeal(Cleared(s, row), row), row);
    ConfirmShape(Cleared(s, row), row);
    ClearedSeen(s, rows, row);
    assert Cleared(s, row).epochEvents == s.epochEvents;
    hide Cleared;
    var c := Cleared(s, row);
    if c.pendingHand.Some? && ZeroPotDeal(row) && row.stacks == c.pendingHand.value.stacks {
      WitnessFrom(c, rows, row);
    }
  }

  lemma WitnessFrom(c: Adapter, rows: seq<Row>, row: Row)
    requires Preceding(c.history, rows, row) && Proposed(c) && c.pendingHand.Some? && ZeroPotDeal(row)
      && row.stacks == c.pendingHand.value.stacks
    ensures DealWitness(rows, row, Some(c.pendingHand.value.comparison))
  {
    hide ZeroPotDeal, PostingComparison;
    var n := |c.history|;
    assert c.history[n - 1] == rows[|rows| - 1] && c.history[n - 2] == rows[|rows| - 2]
      && c.history[n - 3] == rows[|rows| - 3];
  }

  /**
   On every run, a frame that enters a postflop street does so on the second of two adjacent frames that show exactly
   its board.
   */
  lemma StreetNeedsTwoFrames(window: int, rows: seq<Row>, row: Row)
    requires AllAccepted(Initial(window), rows) && !BadFrame(Run(Initial(window), rows), row) && !Blocked(row)
    ensures var s := Run(Initial(window), rows);
      var next := Advance(s, row);
      next.street != s.street && next.street.Some? && next.street != Some(Preflop) ==>
        && rows != [] && rows[|rows| - 1].frame == row.frame - 1
        && PositiveBoardGeometry(rows[|rows| - 1]) == Some(CountOf(next.street))
        && PositiveBoardGeometry(row) == Some(CountOf(next.street))
  {
    AlwaysSeen(window, rows);
    var s := Run(Initial(window), rows);
    ClearedSeen(s, rows, row);
    RestShape(s, row);
    DealShape(Cleared(s, row), row);
    StreetShape(FollowDeal(Cleared(s, row), row), row);
    DealStreet(Cleared(s, row), row);
    GeometryCounts(row);
    assert Cleared(s, row).street == s.street || Cleared(s, row).street.None?;
    hide Run, Advance, FollowDeal, FollowStreet, Cleared, PositiveBoardGeometry, Seen;
  }

  lemma DealStreet(c: Adapter, row: Row)
    ensures FollowDeal(c, row).street == c.street || FollowDeal(c, row).street == Some(Preflop)
  {
    hide ZeroPotDeal, PostingComparison, DealSpot;
  }

  lemma GeometryCounts(row: Row)
    ensures PositiveBoardGeometry(row).Some? ==>
      CountOf(Some(StreetOf(PositiveBoardGeometry(row).value))) == PositiveBoardGeometry(row).value
  {}
}

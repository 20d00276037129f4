/**
 The adapter's memory, epochs and street after any run, said of the rows it was shown and of nothing else.
 */
module EpochRules {
  import opened Common
  import opened StateAdapter
  import opened AdapterRuns
  import opened AdapterWitness

  // ---------------------------------------------------------------- rows

  predicate Clear(row: Row)
  {
    row.sceneSupported && !row.modal
  }

  /** The last `k` rows are clear and one frame apart. */
  predicate Steady(rows: seq<Row>, k: nat)
  {
    k <= |rows| && forall i | |rows| - k <= i < |rows| ::
      Clear(rows[i]) && rows[i].frame == rows[|rows| - 1].frame - (|rows| - 1 - i)
  }

  predicate Dealing(row: Row)
  {
    row.dealVisible && row.boardCount == Some(0)
  }

  predicate FreshDeal(row: Row)
  {
    Dealing(row) && row.pot == Some(0.0)
  }

  /** The last `k` rows are steady and all show a deal on an empty board. */
  predicate DealBlock(rows: seq<Row>, k: nat)
  {
    Steady(rows, k) && forall i | |rows| - k <= i < |rows| :: Dealing(rows[i])
  }

  /** Exactly the first `n` board positions carry an accepted card, and the count says so. */
  predicate Shows(row: Row, n: int)
  {
    && row.boardCount == Some(n) && 3 <= n <= 5
    && forall i | 0 <= i < 5 ::
         if i < n then row.boardSlots[i].rectPresent && row.boardSlots[i].rectShaped && row.boardSlots[i].faceAccepted
         else !row.boardSlots[i].rectPresent
  }

  lemma ShowsExactly(row: Row, n: int)
    ensures PositiveBoardGeometry(row) == Some(n) <==> Shows(row, n)
  {}

  predicate Readable(row: Row, s: int)
    requires 0 <= s < SEATS
  {
    row.stacks[s].Some? && row.stacks[s].value >= 0.0
  }

  predicate Away(row: Row, s: int)
    requires 0 <= s < SEATS
  {
    row.cues[s] == EmptyCue || row.cues[s] == WaitingCue
  }

  /** Seat by seat: who paid, who gained, who could not be compared; only absent seats may be unreadable. */
  ghost predicate Posts(before: Row, after: Row, p: Posting)
  {
    && |p.debits| >= 3
    && (forall s | 0 <= s < SEATS :: (Readable(before, s) || Away(before, s)) && (Readable(after, s) || Away(after, s)))
    && (forall s :: s in p.excluded <==> 0 <= s < SEATS && !(Readable(before, s) && Readable(after, s)))
    && (forall s :: s in p.debits <==>
          0 <= s < SEATS && s !in p.excluded && after.stacks[s].value < before.stacks[s].value)
    && (forall s :: s in p.credits <==>
          0 <= s < SEATS && s !in p.excluded && before.stacks[s].value < after.stacks[s].value)
    && (forall s | s in p.debits :: p.debits[s] == before.stacks[s].value - after.stacks[s].value)
    && (forall s | s in p.credits :: p.credits[s] == after.stacks[s].value - before.stacks[s].value)
  }

  lemma SeatsExactly(before: Row, after: Row, s: int)
    requires 0 <= s < SEATS
    ensures Incomparable(before, after, s) <==>
      !((Readable(before, s) || Away(before, s)) && (Readable(after, s) || Away(after, s)))
    ensures Comparable(before, after, s) <==> Readable(before, s) && Readable(after, s)
  {}

  lemma PostsExactly(before: Row, after: Row, p: Posting)
    ensures PostingComparison(before, after) == Some(p) <==> Posts(before, after, p)
  {
    var full := FullPosting(before, after);
    forall s | 0 <= s < SEATS { SeatsExactly(before, after, s); }
    hide FullPosting, Incomparable, Comparable, Readable, Away;
    if Posts(before, after, p) { OnePosting(before, after, p, full); }
  }

  // ---------------------------------------------------------------- what is remembered

  ghost predicate Remembers(s: Adapter, rows: seq<Row>)
  {
    && |s.history| <= 4 && |s.history| <= |rows| && s.history == rows[|rows| - |s.history|..]
    && (forall k: nat | k <= 4 :: |s.history| >= k <==> Steady(rows, k))
    && s.last == (if rows == [] then None else Some(rows[|rows| - 1].frame))
  }

  lemma SteadySnoc(rows: seq<Row>, row: Row, k: nat)
    requires k >= 1
    ensures Steady(rows + [row], k) <==>
      Clear(row) && (k == 1 || (Steady(rows, k - 1) && rows[|rows| - 1].frame == row.frame - 1))
  {
    var all, n := rows + [row], |rows|;
    assert all[n] == row;
    if Steady(all, k) && k > 1 {
      assert all[n - 1].frame == row.frame - 1;
      forall i | n - (k - 1) <= i < n ensures Clear(rows[i]) && rows[i].frame == rows[n - 1].frame - (n - 1 - i) {
        assert all[i] == rows[i];
      }
    }
    if Clear(row) && k > 1 && Steady(rows, k - 1) && rows[n - 1].frame == row.frame - 1 {
      forall i | n - (k - 1) <= i <= n ensures Clear(all[i]) && all[i].frame == row.frame - (n - i) {
        if i < n { assert all[i] == rows[i]; }
      }
    }
  }

  lemma NoneSteady(rows: seq<Row>)
    ensures Steady(rows, 0)
  {}

  /** What clearing leaves of the history for the coming row. */
  ghost predicate Carried(history: seq<Row>, rows: seq<Row>, row: Row)
  {
    && |history| <= 4 && |history| <= |rows| && history == rows[|rows| - |history|..]
    && forall k: nat | 1 <= k <= 5 :: |history| + 1 >= k <==> Steady(rows + [row], k)
  }

  lemma ClearedCarries(s: Adapter, rows: seq<Row>, row: Row)
    requires Remembers(s, rows) && !BadFrame(s, row) && Clear(row)
    ensures Carried(Cleared(s, row).history, rows, row)
  {
    hide Steady;
    forall k: nat | 1 <= k { SteadySnoc(rows, row, k); }
    NoneSteady(rows);
    var c := Cleared(s, row);
    if rows != [] && rows[|rows| - 1].frame != row.frame - 1 {
      assert c.history == [];
      assert rows[|rows|..] == [];
    } else {
      assert c.history == s.history;
    }
  }

  lemma RememberNext(history: seq<Row>, rows: seq<Row>, row: Row, next: Adapter)
    requires Carried(history, rows, row) && Clear(row)
    requires next.history == Remember(history, row) && next.last == Some(row.frame)
    ensures Remembers(next, rows + [row])
  {
    var n, all := |history|, rows + [row];
    Suffix(history, rows, row);
    hide Steady, Remember;
    NoneSteady(all);
    forall k: nat | k <= 4 ensures |next.history| >= k <==> Steady(all, k) {
      if k > 0 { assert n + 1 >= k <==> Steady(all, k); }
    }
  }

  lemma Suffix(history: seq<Row>, rows: seq<Row>, row: Row)
    requires |history| <= 4 && |history| <= |rows| && history == rows[|rows| - |history|..]
    ensures var h, all := Remember(history, row), rows + [row];
      |h| == (if |history| == 4 then 4 else |history| + 1) && |h| <= |all| && h == all[|all| - |h|..]
  {
    var n, all := |history|, rows + [row];
    if n == 4 {
      assert all[|all| - 4..] == rows[|rows| - 3..] + [row];
      assert history[1..] == rows[|rows| - 3..];
    } else {
      assert all[|all| - (n + 1)..] == rows[|rows| - n..] + [row];
    }
  }

  lemma NothingRemembered(s: Adapter, rows: seq<Row>, row: Row)
    requires s.history == [] && s.last == Some(row.frame) && !Clear(row)
    ensures Remembers(s, rows + [row])
  {
    forall k: nat | 1 <= k { SteadySnoc(rows, row, k); }
    hide Steady;
    NoneSteady(rows + [row]);
  }

  // ---------------------------------------------------------------- what is counted

  ghost predicate Streaks(streak: int, rows: seq<Row>)
  {
    streak >= 0 && forall k: nat :: streak >= k <==> DealBlock(rows, k)
  }

  lemma BlockSnoc(rows: seq<Row>, row: Row, k: nat)
    requires k >= 1
    ensures DealBlock(rows + [row], k) <==>
      Clear(row) && Dealing(row) && (k == 1 || (DealBlock(rows, k - 1) && rows[|rows| - 1].frame == row.frame - 1))
  {
    var all, n := rows + [row], |rows|;
    SteadySnoc(rows, row, k);
    assert all[n] == row && forall i | 0 <= i < n :: all[i] == rows[i];
    hide Steady, Dealing;
    if DealBlock(all, k) && k > 1 {
      forall i | n - (k - 1) <= i < n ensures Dealing(rows[i]) { assert Dealing(all[i]); }
    }
  }

  lemma StreakNext(before: int, rows: seq<Row>, row: Row, s: Adapter, streak: int)
    requires Streaks(before, rows) && Clear(row)
    requires s.last == (if rows == [] then None else Some(rows[|rows| - 1].frame))
    requires streak ==
      if !Dealing(row) then 0 else if s.last.Some? && row.frame != s.last.value + 1 then 1 else before + 1
    ensures Streaks(streak, rows + [row])
  {
    hide DealBlock;
    NoBlock(rows + [row]);
    forall k: nat ensures streak >= k <==> DealBlock(rows + [row], k) {
      if k > 0 {
        BlockSnoc(rows, row, k);
        assert before >= k - 1 <==> DealBlock(rows, k - 1);
        if rows == [] && k > 1 { FewRows(rows, k - 1); }
      }
    }
  }

  lemma NoBlock(rows: seq<Row>)
    ensures DealBlock(rows, 0)
  {}

  lemma FewRows(rows: seq<Row>, k: nat)
    requires k > |rows|
    ensures !DealBlock(rows, k)
  {}

  lemma NoStreak(rows: seq<Row>, row: Row)
    requires !Clear(row)
    ensures Streaks(0, rows + [row])
  {
    hide DealBlock;
    NoBlock(rows + [row]);
    forall k: nat ensures 0 >= k <==> DealBlock(rows + [row], k) {
      if k > 0 { BlockSnoc(rows, row, k); }
    }
  }

  ghost predicate BoardShown(row: Row)
  {
    exists n :: Shows(row, n)
  }

  /**
   The geometry run belongs to the last row, and is longer than one exactly when the row before shows the same board.
   */
  ghost predicate Follows(run: Option<GeometryRun>, rows: seq<Row>)
  {
    && (run.Some? <==> rows != [] && Clear(rows[|rows| - 1]) && BoardShown(rows[|rows| - 1]))
    && (run.Some? ==>
          var g, last := run.value, |rows| - 1;
          && g.streak >= 1 && g.lastFrame == rows[last].frame && Shows(rows[last], g.count)
          && (g.streak >= 2 <==> Steady(rows, 2) && Shows(rows[last - 1], g.count)))
  }

  // ---------------------------------------------------------------- what is proposed

  /** Two rows with one stack vector and an empty board, then a fresh deal whose posting the last two compare. */
  ghost predicate Proposal(rows: seq<Row>, p: Posting)
  {
    Steady(rows, 3) &&
    var a, b, c := rows[|rows| - 3], rows[|rows| - 2], rows[|rows| - 1];
    a.stacks == b.stacks && a.boardCount == b.boardCount == Some(0) && FreshDeal(c) && Posts(b, c, p)
  }

  ghost predicate Proposes(pending: Option<PendingHand>, rows: seq<Row>)
  {
    && (forall p :: Proposal(rows, p) <==> pending.Some? && pending.value.comparison == p)
    && (pending.Some? ==>
          rows != [] && pending.value.first == rows[|rows| - 1].frame
            && pending.value.stacks == rows[|rows| - 1].stacks)
  }

  lemma ProposalNext(c: Adapter, rows: seq<Row>, row: Row)
    requires Carried(c.history, rows, row) && Clear(row) && c.pendingHand.None?
    ensures Proposes(ProposeHand(c, row).pendingHand, rows + [row])
  {
    var n, all := |c.history|, rows + [row];
    assert n + 1 >= 3 <==> Steady(all, 3);
    if n < 2 {
      hide Posts, Steady;
    } else {
      hide Steady;
      LastThree(c.history, rows, row);
      ProposedExactly(c, row);
      hide ProposeHand, Posts, FreshDeal;
    }
  }

  lemma LastThree(history: seq<Row>, rows: seq<Row>, row: Row)
    requires 2 <= |history| <= |rows| && history == rows[|rows| - |history|..]
    ensures var n, all := |history|, rows + [row];
      all[|all| - 3] == history[n - 2] && all[|all| - 2] == history[n - 1] && all[|all| - 1] == row
  {}

  lemma ProposedExactly(c: Adapter, row: Row)
    requires |c.history| >= 2 && c.pendingHand.None?
    ensures var a, b := c.history[|c.history| - 2], c.history[|c.history| - 1];
      var pending := ProposeHand(c, row).pendingHand;
      && (forall p :: pending.Some? && pending.value.comparison == p <==>
            a.stacks == b.stacks && a.boardCount == b.boardCount == Some(0) && FreshDeal(row) && Posts(b, row, p))
      && (pending.Some? ==> pending.value.first == row.frame && pending.value.stacks == row.stacks)
  {
    ProposedShape(c, row);
    hide FreshDeal, PostingComparison, Posts, ProposeHand;
    var b := c.history[|c.history| - 1];
    forall p ensures PostingComparison(b, row) == Some(p) <==> Posts(b, row, p) { PostsExactly(b, row, p); }
  }

  lemma ProposedShape(c: Adapter, row: Row)
    requires |c.history| >= 2 && c.pendingHand.None?
    ensures var a, b := c.history[|c.history| - 2], c.history[|c.history| - 1];
      var comparison := PostingComparison(b, row);
      ProposeHand(c, row).pendingHand ==
      if a.stacks == b.stacks && a.boardCount == b.boardCount == Some(0) && FreshDeal(row) && comparison.Some?
      then Some(PendingHand(row.frame, row.stacks, comparison.value)) else None
  {
    assert FreshDeal(row) <==> ZeroPotDeal(row);
    hide FreshDeal, ZeroPotDeal, PostingComparison;
  }

  // ---------------------------------------------------------------- one step

  ghost predicate Exact(s: Adapter, rows: seq<Row>)
  {
    Remembers(s, rows) && Streaks(s.dealStreak, rows) && Follows(s.geometryRun, rows) && Proposes(s.pendingHand, rows)
  }

  /** The deal before the coming row is confirmed by it. */
  ghost predicate Confirms(rows: seq<Row>, row: Row, p: Posting)
  {
    && Proposal(rows, p) && rows[|rows| - 1].frame == row.frame - 1
    && FreshDeal(row) && row.stacks == rows[|rows| - 1].stacks
  }

  /** The row follows the last one without a gap, if there is one. */
  predicate InSequence(rows: seq<Row>, row: Row)
  {
    rows == [] || rows[|rows| - 1].frame == row.frame - 1
  }

  /** What clearing keeps: everything in sequence, and only what was published otherwise. */
  lemma ClearedExactly(s: Adapter, rows: seq<Row>, row: Row)
    requires Remembers(s, rows) && !BadFrame(s, row)
    ensures Cleared(s, row) ==
      if InSequence(rows, row) && Clear(row) then s.(last := Some(row.frame))
      else Adapter(s.window, Some(row.frame), [], None, s.epochEvents, 0, None, None, false, None, [], s.actions, [],
        [], {})
  {
    hide Remembers, Steady;
    LastIs(s, rows);
  }

  lemma LastIs(s: Adapter, rows: seq<Row>)
    requires Remembers(s, rows)
    ensures s.last == (if rows == [] then None else Some(rows[|rows| - 1].frame))
    ensures |s.history| <= 4
  {
    hide Steady;
  }

  /** What the deal phase makes of the cleared state. */
  lemma DealFields(c: Adapter, row: Row)
    ensures var d := FollowDeal(c, row);
      var confirmed := c.pendingHand.Some? && FreshDeal(row) && row.stacks == c.pendingHand.value.stacks;
      var streak := if Dealing(row) then c.dealStreak + 1 else 0;
      var lone := !confirmed && c.epoch.None? && streak == 2;
      && d.history == c.history && d.last == c.last && d.dealStreak == streak
      && d.pendingHand == ProposeHand(c.(pendingHand := None), row).pendingHand
      && d.epochEvents == c.epochEvents
           + (if confirmed
              then [EpochEvent(c.pendingHand.value.first, row.frame, MultiPostDeal,
                Some(c.pendingHand.value.comparison))]
              else if lone then [EpochEvent(row.frame - 1, row.frame, UnanchoredDeal, None)] else [])
      && d.epoch ==
        (if confirmed then Some(c.pendingHand.value.first) else if lone then Some(row.frame - 1) else c.epoch)
      && d.street == (if confirmed || lone then Some(Preflop) else c.street)
      && d.geometryRun == (if confirmed || lone then None else c.geometryRun)
      && d.boardSupported == c.boardSupported
  {
    hide PostingComparison;
    assert FreshDeal(row) <==> ZeroPotDeal(row);
    assert Dealing(row) <==> DealSpot(row);
    hide ZeroPotDeal, DealSpot, FreshDeal;
    var counted := c.(dealStreak := if DealSpot(row) then c.dealStreak + 1 else 0);
    var e := ConfirmHand(counted, row);
    assert e.history == c.history && e.pendingHand.None?;
    var f := ProposeHand(e, row);
    assert f == e.(pendingHand := f.pendingHand);
    assert f.pendingHand == ProposeHand(c.(pendingHand := None), row).pendingHand;
    hide ProposeHand;
    assert c.epochEvents + [] == c.epochEvents;
  }

  /** The street phase in terms of the board the row shows. */
  lemma StreetFields(d: Adapter, row: Row)
    ensures var f := FollowStreet(d, row);
      && (f.geometryRun.Some? <==> BoardShown(row))
      && (f.geometryRun.Some? ==>
            var g, before := f.geometryRun.value, d.geometryRun;
            && Shows(row, g.count) && g.lastFrame == row.frame
            && g.streak == (if before.Some? && before.value.count == g.count && before.value.lastFrame == row.frame - 1
                            then before.value.streak + 1 else 1))
      && (if f.geometryRun.Some? && f.geometryRun.value.streak >= 2 && f.geometryRun.value.count >= CountOf(d.street)
          then f.street == Some(StreetOf(f.geometryRun.value.count)) && f.boardSupported
          else f.street == d.street
               && (f.boardSupported <==> d.street == Some(Preflop) && row.boardCount == Some(0) && d.epoch.Some?))
      && f == d.(street := f.street, boardSupported := f.boardSupported, geometryRun := f.geometryRun)
  {
    forall n { ShowsExactly(row, n); }
    hide PositiveBoardGeometry, Shows;
    if PositiveBoardGeometry(row).Some? { assert Shows(row, PositiveBoardGeometry(row).value); }
  }

  lemma OneBoard(row: Row, n: int, m: int)
    requires Shows(row, n) && Shows(row, m)
    ensures n == m
  {}

  lemma NoDealOnBoard(row: Row)
    requires Dealing(row)
    ensures !BoardShown(row)
  {}

  lemma FollowsNext(s: Adapter, rows: seq<Row>, row: Row, d: Adapter)
    requires Remembers(s, rows) && Follows(s.geometryRun, rows) && Clear(row)
    requires d.geometryRun == (if InSequence(rows, row) then s.geometryRun else None) || Dealing(row)
    ensures Follows(FollowStreet(d, row).geometryRun, rows + [row])
  {
    StreetFields(d, row);
    LastIs(s, rows);
    var all, f := rows + [row], FollowStreet(d, row);
    assert all[|rows|] == row;
    SteadySnoc(rows, row, 2);
    hide FollowStreet;
    if f.geometryRun.Some? {
      var g := f.geometryRun.value;
      if Dealing(row) { NoDealOnBoard(row); }
      assert !Dealing(row);
      hide Dealing, BoardShown;
      if rows != [] && rows[|rows| - 1].frame == row.frame - 1 {
        assert all[|all| - 2] == rows[|rows| - 1];
        OneSteady(rows);
        if Clear(rows[|rows| - 1]) && Shows(rows[|rows| - 1], g.count) {
          ShownBoard(rows[|rows| - 1], g.count);
          OneBoard(rows[|rows| - 1], g.count, s.geometryRun.value.count);
        }
        hide Shows, Steady;
      }
    }
  }

  lemma ShownBoard(row: Row, n: int)
    requires Shows(row, n)
    ensures BoardShown(row)
  {}

  lemma OneSteady(rows: seq<Row>)
    requires rows != []
    ensures Steady(rows, 1) <==> Clear(rows[|rows| - 1])
  {}

  lemma StepExact(s: Adapter, rows: seq<Row>, row: Row)
    requires Exact(s, rows) && !BadFrame(s, row)
    ensures Exact(Advance(s, row), rows + [row])
  {
    hide Remembers, Streaks, Follows, Proposes;
    assert Blocked(row) <==> !Clear(row);
    if !Clear(row) {
      assert Advance(s, row) == Cleared(s, row);
      ClearedExactly(s, rows, row);
      hide Advance, Cleared;
      NothingRemembered(Advance(s, row), rows, row);
      NoStreak(rows, row);
      NothingShown(rows, row);
    } else {
      hide Blocked;
      RestShape(s, row);
      ClearedExactly(s, rows, row);
      LastIs(s, rows);
      hide Advance, FollowDeal, FollowStreet;
      var c := Cleared(s, row);
      var d, next := FollowDeal(c, row), Advance(s, row);
      ClearedCarries(s, rows, row);
      hide Cleared;
      DealFields(c, row);
      StreetFields(d, row);
      hide Remember, ProposeHand, Dealing, FreshDeal, BadFrame, Shows, BoardShown;
      RememberNext(c.history, rows, row, next);
      StreakNext(s.dealStreak, rows, row, s, d.dealStreak);
      if d.geometryRun != c.geometryRun { LoneDeals(c, row); }
      FollowsNext(s, rows, row, d);
      ProposalNext(c.(pendingHand := None), rows, row);
    }
  }

  lemma LoneDeals(c: Adapter, row: Row)
    requires FollowDeal(c, row).geometryRun != c.geometryRun
    ensures Dealing(row)
  {
    DealFields(c, row);
    hide FollowDeal, ProposeHand;
  }

  lemma NothingShown(rows: seq<Row>, row: Row)
    requires !Clear(row)
    ensures Follows(None, rows + [row]) && Proposes(None, rows + [row])
  {
    SteadySnoc(rows, row, 3);
    hide Posts, Steady;
  }

  lemma {:induction false} AlwaysExact(window: int, rows: seq<Row>)
    requires AllAccepted(Initial(window), rows)
    ensures Exact(Run(Initial(window), rows), rows)
  {
    hide Advance, Exact, BadFrame;
    if rows == [] {
      InitialExact(window);
    } else {
      var init, row := rows[..|rows| - 1], rows[|rows| - 1];
      AlwaysExact(window, init);
      StepExact(Run(Initial(window), init), init, row);
      assert init + [row] == rows;
    }
  }

  lemma InitialExact(window: int)
    ensures Exact(Initial(window), [])
  {
    var s := Initial(window);
    assert Remembers(s, []) by { NoneSteady([]); }
    forall k: nat | k > 0 { FewRows([], k); }
    NoBlock([]);
    hide Posts, Shows, DealBlock, Remembers, Steady;
    assert !Steady([], 3) by { TooFew([], 3); }
  }

  lemma TooFew(rows: seq<Row>, k: nat)
    requires k > |rows|
    ensures !Steady(rows, k)
  {}

  // ---------------------------------------------------------------- what every run does

  /** A row is refused exactly when its frame is negative or not later than the last row's. */
  lemma RefusedExactly(window: int, rows: seq<Row>, row: Row)
    requires AllAccepted(Initial(window), rows)
    ensures Step(Run(Initial(window), rows), row).Raised? <==>
      row.frame < 0 || (rows != [] && row.frame <= rows[|rows| - 1].frame)
  {
    AlwaysExact(window, rows);
    LastIs(Run(Initial(window), rows), rows);
    hide Remembers, Run, AllAccepted, Advance;
  }

  /** A gap, an unsupported scene or an overlay forgets everything but what was published. */
  lemma InterruptedExactly(window: int, rows: seq<Row>, row: Row)
    requires AllAccepted(Initial(window), rows) && !BadFrame(Run(Initial(window), rows), row) && !Clear(row)
    ensures var s := Run(Initial(window), rows);
      Advance(s, row) ==
      Adapter(s.window, Some(row.frame), [], None, s.epochEvents, 0, None, None, false, None, [], s.actions, [], [], {})
  {
    AlwaysExact(window, rows);
    var s := Run(Initial(window), rows);
    ClearedExactly(s, rows, row);
    hide Run, Cleared;
  }

  /** The deal phase of a clear frame, over the state before it. */
  ghost predicate Dealt(s: Adapter, rows: seq<Row>, row: Row, next: Adapter)
  {
    var pending := if InSequence(rows, row) then s.pendingHand else None;
    var open := if InSequence(rows, row) then s.epoch else None;
    var confirmed := pending.Some? && FreshDeal(row) && row.stacks == pending.value.stacks;
    var lone := !confirmed && open.None? && next.dealStreak == 2;
    && next.epochEvents == s.epochEvents
         + (if confirmed
            then [EpochEvent(pending.value.first, row.frame, MultiPostDeal, Some(pending.value.comparison))]
            else if lone then [EpochEvent(row.frame - 1, row.frame, UnanchoredDeal, None)] else [])
    && next.epoch == (if confirmed then Some(pending.value.first) else if lone then Some(row.frame - 1) else open)
  }

  lemma StepDealt(s: Adapter, rows: seq<Row>, row: Row)
    requires Remembers(s, rows) && !BadFrame(s, row) && Clear(row)
    ensures Dealt(s, rows, row, Advance(s, row))
  {
    assert !Blocked(row);
    hide Remembers, BadFrame, Blocked;
    RestShape(s, row);
    ClearedExactly(s, rows, row);
    var c := Cleared(s, row);
    var d := FollowDeal(c, row);
    StreetFields(d, row);
    DealFields(c, row);
    hide Advance, FollowDeal, FollowStreet, Cleared, ProposeHand, Remember, Shows, BoardShown, FreshDeal, Dealing;
  }

  /**
   Which epoch a frame opens: one with a posting exactly when it confirms the proposal of the three rows before it; one
   without exactly when no epoch is open and the deal shows for the second time in a row; otherwise none.
   */
  lemma EpochExactly(window: int, rows: seq<Row>, row: Row)
    requires AllAccepted(Initial(window), rows) && !BadFrame(Run(Initial(window), rows), row) && Clear(row)
    ensures var s, all := Run(Initial(window), rows), rows + [row];
      var next, open := Advance(s, row), if InSequence(rows, row) then s.epoch else None;
      var lone := open.None? && DealBlock(all, 2) && !DealBlock(all, 3);
      && (forall p | Confirms(rows, row, p) ::
            && next.epochEvents == s.epochEvents + [EpochEvent(row.frame - 1, row.frame, MultiPostDeal, Some(p))]
            && next.epoch == Some(row.frame - 1))
      && ((forall p :: !Confirms(rows, row, p)) ==>
            && next.epochEvents ==
                 s.epochEvents + (if lone then [EpochEvent(row.frame - 1, row.frame, UnanchoredDeal, None)] else [])
            && next.epoch == (if lone then Some(row.frame - 1) else open))
  {
    var s, all := Run(Initial(window), rows), rows + [row];
    hide Run, AllAccepted, Advance, Remembers, BadFrame, Follows, DealBlock, Confirms, FreshDeal, Proposes, Clear;
    AlwaysExact(window, rows);
    StepExact(s, rows, row);
    StepDealt(s, rows, row);
    var next := Advance(s, row);
    assert next.dealStreak >= 2 <==> DealBlock(all, 2);
    assert next.dealStreak >= 3 <==> DealBlock(all, 3);
    hide Streaks;
    var pending := if InSequence(rows, row) then s.pendingHand else None;
    ConfirmsExactly(s.pendingHand, pending, rows, row);
    assert pending.Some? ==>
      (Confirms(rows, row, pending.value.comparison) <==> FreshDeal(row) && row.stacks == pending.value.stacks);
  }

  lemma ConfirmsExactly(before: Option<PendingHand>, pending: Option<PendingHand>, rows: seq<Row>, row: Row)
    requires Proposes(before, rows) && pending == if InSequence(rows, row) then before else None
    ensures forall p :: Confirms(rows, row, p) <==>
      pending.Some? && pending.value.comparison == p && FreshDeal(row) && row.stacks == pending.value.stacks
    ensures pending.Some? ==> pending.value.first == row.frame - 1
  {
    forall p ensures Proposal(rows, p) ==> rows != [] { if Proposal(rows, p) { assert Steady(rows, 3); } }
    hide Proposal, FreshDeal;
  }

  /** How many board cards a street shows. */
  function Cards(s: Option<Street>): int
  {
    if s == Some(River) then 5 else if s == Some(Turn) then 4 else if s == Some(Flop) then 3 else 0
  }

  /** The row and the one right before it show the same board. */
  predicate Twice(rows: seq<Row>, row: Row, n: int)
  {
    && rows != [] && rows[|rows| - 1].frame == row.frame - 1 && Clear(rows[|rows| - 1])
    && Shows(rows[|rows| - 1], n) && Shows(row, n)
  }

  /** The street phase of a clear frame, over the state before it. */
  ghost predicate Streeted(s: Adapter, rows: seq<Row>, row: Row, next: Adapter)
  {
    var base := if next.epochEvents != s.epochEvents then Some(Preflop)
    else if InSequence(rows, row) then s.street else None;
    if next.geometryRun.Some? && next.geometryRun.value.streak >= 2 && next.geometryRun.value.count >= CountOf(base)
    then next.street == Some(StreetOf(next.geometryRun.value.count)) && next.boardSupported
    else next.street == base
         && (next.boardSupported <==> base == Some(Preflop) && row.boardCount == Some(0) && next.epoch.Some?)
  }

  lemma StepStreeted(s: Adapter, rows: seq<Row>, row: Row)
    requires Remembers(s, rows) && !BadFrame(s, row) && Clear(row)
    ensures Streeted(s, rows, row, Advance(s, row))
  {
    assert !Blocked(row);
    hide Remembers, BadFrame, Blocked;
    RestShape(s, row);
    ClearedExactly(s, rows, row);
    var c := Cleared(s, row);
    var d := FollowDeal(c, row);
    DealFields(c, row);
    StreetFields(d, row);
    hide Advance, FollowDeal, FollowStreet, Cleared, ProposeHand, Remember, Shows, BoardShown, FreshDeal, Dealing,
      CountOf;
  }

  /**
   Which street a frame is on: that of a board shown twice in a row and not smaller than the street's own; otherwise the
   street stays, starting preflop where the frame opens an epoch. It is supported on the second frame of its board, or
   preflop while the board is empty.
   */
  lemma StreetExactly(window: int, rows: seq<Row>, row: Row)
    requires AllAccepted(Initial(window), rows) && !BadFrame(Run(Initial(window), rows), row) && Clear(row)
    ensures var s := Run(Initial(window), rows);
      var next := Advance(s, row);
      var base := if next.epochEvents != s.epochEvents then Some(Preflop)
      else if InSequence(rows, row) then s.street else None;
      && (forall n | Twice(rows, row, n) && n >= Cards(base) ::
            next.street.Some? && Cards(next.street) == n && next.boardSupported)
      && ((forall n :: !(Twice(rows, row, n) && n >= Cards(base))) ==>
            && next.street == base
            && (next.boardSupported <==> base == Some(Preflop) && row.boardCount == Some(0) && next.epoch.Some?))
  {
    var s := Run(Initial(window), rows);
    hide Run, AllAccepted, Advance, Remembers, BadFrame, Follows, Streaks, Proposes, Twice;
    AlwaysExact(window, rows);
    StepExact(s, rows, row);
    StepStreeted(s, rows, row);
    var next := Advance(s, row);
    forall n ensures Twice(rows, row, n) <==>
      next.geometryRun.Some? && next.geometryRun.value.count == n && next.geometryRun.value.streak >= 2
    {
      TwiceExactly(next.geometryRun, rows, row, n);
    }
    forall n | Twice(rows, row, n) ensures 3 <= n <= 5 { TwiceShown(rows, row, n); }
    forall b: Option<Street> ensures CountOf(b) == Cards(b) {}
    if next.geometryRun.Some? {
      assert Twice(rows, row, next.geometryRun.value.count) <==> next.geometryRun.value.streak >= 2;
    }
  }

  lemma TwiceShown(rows: seq<Row>, row: Row, n: int)
    requires Twice(rows, row, n)
    ensures 3 <= n <= 5
  {}

  lemma TwiceExactly(run: Option<GeometryRun>, rows: seq<Row>, row: Row, n: int)
    requires Follows(run, rows + [row]) && Clear(row)
    ensures Twice(rows, row, n) <==> run.Some? && run.value.count == n && run.value.streak >= 2
  {
    var all := rows + [row];
    assert all[|rows|] == row && forall i | 0 <= i < |rows| :: all[i] == rows[i];
    SteadySnoc(rows, row, 2);
    if rows != [] { OneSteady(rows); }
    hide Steady;
    if Shows(row, n) { ShownBoard(row, n); }
    if run.Some? && Shows(row, n) { OneBoard(row, n, run.value.count); }
    hide Shows, BoardShown;
  }
}

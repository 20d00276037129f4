/**
 What the hand ledger means over whole runs, and what the adapter's epochs guarantee it.
 */
module HandRuns {
  import opened Common
  import opened StateAdapter
  import opened AdapterRuns
  import opened HandLedger

  // ---------------------------------------------------------------- epochs of the adapter

  predicate GoodPosting(p: Posting)
  {
    |p.debits| >= 3 && ValidPosts(p.debits)
  }

  predicate GoodEvent(e: EpochEvent)
  {
    e.epoch == e.frame - 1 && (e.status == MultiPostDeal ==> e.posting.Some? && GoodPosting(e.posting.value))
  }

  predicate EventsInOrder(events: seq<EpochEvent>, last: Option<int>)
  {
    && (forall i | 0 <= i < |events| :: GoodEvent(events[i]) && last.Some? && events[i].frame <= last.value)
    && (forall i, j | 0 <= i < j < |events| :: events[i].epoch < events[j].epoch)
  }

  /**
   Every epoch is named after the frame before its event, later ones have later names, and the open one is the last.
   */
  predicate EpochsInOrder(s: Adapter)
  {
    && EventsInOrder(s.epochEvents, s.last)
    && (s.pendingHand.Some? ==>
      s.last == Some(s.pendingHand.value.first)
      && GoodPosting(s.pendingHand.value.comparison))
    && (s.epoch.Some? ==> s.epochEvents != [] && s.epochEvents[|s.epochEvents| - 1].epoch == s.epoch.value)
  }

  /** Midway through a frame: the same, with all events still older than the frame. */
  predicate Entering(s: Adapter, frame: int)
  {
    && (forall i | 0 <= i < |s.epochEvents| :: GoodEvent(s.epochEvents[i]) && s.epochEvents[i].frame < frame)
    && (forall i, j | 0 <= i < j < |s.epochEvents| :: s.epochEvents[i].epoch < s.epochEvents[j].epoch)
    && (s.epoch.Some? ==> s.epochEvents != [] && s.epochEvents[|s.epochEvents| - 1].epoch == s.epoch.value)
  }

  predicate Placed(s: Adapter, frame: int)
  {
    s.last == Some(frame) && EpochsInOrder(s)
  }

  lemma NewEpochInOrder(s: Adapter, frame: int, status: EpochStatus, posting: Option<Posting>)
    requires Entering(s, frame) && s.last == Some(frame) && s.pendingHand.None?
    requires status == MultiPostDeal ==> posting.Some? && GoodPosting(posting.value)
    ensures Placed(NewEpoch(s, frame, frame - 1, status, posting), frame)
  {
    hide GoodPosting;
    var n := NewEpoch(s, frame, frame - 1, status, posting);
    var k := |s.epochEvents|;
    forall i | 0 <= i < |n.epochEvents| ensures GoodEvent(n.epochEvents[i]) && n.epochEvents[i].frame <= frame {
      assert i < k ==> n.epochEvents[i] == s.epochEvents[i];
    }
    forall i, j | 0 <= i < j < |n.epochEvents| ensures n.epochEvents[i].epoch < n.epochEvents[j].epoch {
      assert n.epochEvents[i] == s.epochEvents[i] && GoodEvent(s.epochEvents[i]);
      assert j < k ==> n.epochEvents[j] == s.epochEvents[j];
    }
  }

  lemma PostingIsGood(before: Row, after: Row)
    requires PostingComparison(before, after).Some?
    ensures GoodPosting(PostingComparison(before, after).value)
  {}

  lemma ProposeInOrder(s: Adapter, row: Row)
    requires s.last == Some(row.frame) && EpochsInOrder(s)
    ensures EpochsInOrder(ProposeHand(s, row))
  {
    hide PostingComparison, GoodPosting, GoodEvent, ZeroPotDeal;
    var n := |s.history|;
    if n >= 2 && PostingComparison(s.history[n - 1], row).Some? { PostingIsGood(s.history[n - 1], row); }
    var c := ProposeHand(s, row);
    assert c.epochEvents == s.epochEvents && c.epoch == s.epoch && c.last == s.last;
    hide ProposeHand;
  }

  lemma WeakenEntering(s: Adapter, frame: int)
    requires Entering(s, frame) && s.last == Some(frame) && s.pendingHand.None?
    ensures EpochsInOrder(s)
  {
    hide GoodEvent;
  }

  lemma ConfirmInOrder(c: Adapter, row: Row)
    requires Entering(c, row.frame) && c.last == Some(row.frame)
    requires c.pendingHand.Some? ==>
      c.pendingHand.value.first == row.frame - 1
      && GoodPosting(c.pendingHand.value.comparison)
    ensures var d := ConfirmHand(c, row);
      Placed(d, row.frame) && d.pendingHand.None? && (d.epoch.None? ==> Entering(d, row.frame))
  {
    var quiet := c.(pendingHand := None);
    if c.pendingHand.Some? { NewEpochInOrder(quiet, row.frame, MultiPostDeal, Some(c.pendingHand.value.comparison)); }
    assert Entering(quiet, row.frame);
    WeakenEntering(quiet, row.frame);
    hide Placed, Entering, EpochsInOrder, GoodPosting, ZeroPotDeal;
    if c.pendingHand.Some? {
      var p := c.pendingHand.value;
      assert NewEpoch(c, row.frame, p.first, MultiPostDeal, Some(p.comparison)).(pendingHand := None)
          == NewEpoch(quiet, row.frame, row.frame - 1, MultiPostDeal, Some(p.comparison));
    }
    assert Placed(quiet, row.frame) by { PlacedQuiet(quiet, row.frame); }
  }

  lemma PlacedQuiet(s: Adapter, frame: int)
    requires s.last == Some(frame) && EpochsInOrder(s)
    ensures Placed(s, frame)
  {}

  lemma UnanchoredInOrder(d: Adapter, e: Adapter, frame: int)
    requires Entering(d, frame) && Placed(e, frame) && d.pendingHand.None? && d == e.(pendingHand := None)
    ensures Placed(NewEpoch(e, frame, frame - 1, UnanchoredDeal, None), frame)
  {
    NewEpochInOrder(d, frame, UnanchoredDeal, None);
    hide GoodEvent, GoodPosting, Entering;
    var u := NewEpoch(e, frame, frame - 1, UnanchoredDeal, None);
    assert u == NewEpoch(d, frame, frame - 1, UnanchoredDeal, None).(pendingHand := e.pendingHand);
  }

  lemma DealInOrder(c: Adapter, row: Row)
    requires Entering(c, row.frame) && c.last == Some(row.frame)
    requires c.pendingHand.Some? ==>
      c.pendingHand.value.first == row.frame - 1
      && GoodPosting(c.pendingHand.value.comparison)
    ensures Placed(FollowDeal(c, row), row.frame)
  {
    hide ConfirmHand, ProposeHand, NewEpoch, Entering, EpochsInOrder, GoodPosting, DealSpot, Placed;
    var streak := if DealSpot(row) then c.dealStreak + 1 else 0;
    var counted := c.(dealStreak := streak);
    StreakEnters(c, row.frame, streak);
    ConfirmInOrder(counted, row);
    var d := ConfirmHand(counted, row);
    PlacedMeans(d, row.frame);
    ProposeInOrder(d, row);
    ProposeOnly(d, row);
    var e := ProposeHand(d, row);
    PlacedQuiet(e, row.frame);
    if e.epoch.None? { UnanchoredInOrder(d, e, row.frame); }
  }

  lemma StreakEnters(c: Adapter, frame: int, streak: int)
    requires Entering(c, frame)
    ensures Entering(c.(dealStreak := streak), frame)
  {
    hide GoodEvent;
  }

  lemma PlacedMeans(s: Adapter, frame: int)
    requires Placed(s, frame)
    ensures s.last == Some(frame) && EpochsInOrder(s)
  {
    hide EpochsInOrder;
  }

  lemma ProposeOnly(d: Adapter, row: Row)
    requires d.pendingHand.None?
    ensures d == ProposeHand(d, row).(pendingHand := None)
  {
    hide PostingComparison, ZeroPotDeal;
  }

  lemma ClearedEnters(s: Adapter, row: Row)
    requires EpochsInOrder(s) && !BadFrame(s, row)
    ensures var c := Cleared(s, row);
      && Entering(c, row.frame) && c.last == Some(row.frame)
      && (c.pendingHand.Some? ==>
        c.pendingHand.value.first == row.frame - 1
        && GoodPosting(c.pendingHand.value.comparison))
      && (Blocked(row) ==> c.pendingHand.None?)
  {
    hide GoodEvent, GoodPosting;
  }

  /** After the deal phase, nothing in the frame touches the epochs any more. */
  lemma DealDecidesEpochs(s: Adapter, row: Row)
    requires !BadFrame(s, row) && !Blocked(row)
    ensures var d, next := FollowDeal(Cleared(s, row), row), Advance(s, row);
      next.epochEvents == d.epochEvents && next.epoch == d.epoch && next.pendingHand == d.pendingHand
        && next.last == d.last
  {
    hide FollowDeal, PositiveBoardGeometry, PotStep, Cleared, ResolveAll, Arrivals;
    var d := FollowDeal(Cleared(s, row), row);
    var f := FollowStreet(d, row);
    assert f == d.(street := f.street, boardSupported := f.boardSupported, geometryRun := f.geometryRun);
    var p := WithGlyphs(Prepared(s, row), row);
    ResolvePass(p, row.frame, p.pending);
    hide Balanced, FollowStreet;
    assert Settled(s, row) ==
      p.(pending := Settled(s, row).pending, actions := Settled(s, row).actions, usedCash := Settled(s, row).usedCash);
  }

  lemma SameEpochs(d: Adapter, next: Adapter)
    requires EpochsInOrder(d)
    requires next.epochEvents == d.epochEvents && next.epoch == d.epoch && next.pendingHand == d.pendingHand
      && next.last == d.last
    ensures EpochsInOrder(next)
  {
    hide EventsInOrder, GoodPosting;
    if next.pendingHand.Some? { assert next.pendingHand.value == d.pendingHand.value; }
  }

  lemma BlockedInOrder(s: Adapter, row: Row)
    requires EpochsInOrder(s) && !BadFrame(s, row) && Blocked(row)
    ensures EpochsInOrder(Advance(s, row))
  {
    assert Advance(s, row) == Cleared(s, row);
    hide Advance, Cleared, EpochsInOrder, Entering;
    ClearedEnters(s, row);
    WeakenEntering(Cleared(s, row), row.frame);
  }

  lemma StepInOrder(s: Adapter, row: Row)
    requires EpochsInOrder(s)
    ensures EpochsInOrder(Advance(s, row))
  {
    if BadFrame(s, row) {
      assert Advance(s, row) == s;
    } else if Blocked(row) {
      BlockedInOrder(s, row);
    } else {
      hide Advance, FollowDeal, Cleared, EpochsInOrder, Entering, GoodPosting, Blocked, BadFrame;
      ClearedEnters(s, row);
      DealInOrder(Cleared(s, row), row);
      DealDecidesEpochs(s, row);
      SameEpochs(FollowDeal(Cleared(s, row), row), Advance(s, row));
    }
  }

  lemma {:induction false} EpochsAlwaysInOrder(window: int, rows: seq<Row>)
    ensures EpochsInOrder(Run(Initial(window), rows))
  {
    if rows == [] {
    } else {
      EpochsAlwaysInOrder(window, rows[..|rows| - 1]);
      hide Advance;
      StepInOrder(Run(Initial(window), rows[..|rows| - 1]), rows[|rows| - 1]);
    }
  }

  lemma {:induction false} EventsOfNone(events: seq<EpochEvent>, epoch: int)
    requires forall i | 0 <= i < |events| :: events[i].epoch != epoch
    ensures EventsOf(events, epoch) == []
  {
    if events != [] { EventsOfNone(events[..|events| - 1], epoch); }
  }

  /**
   The epoch the adapter has open names exactly one of its events, so a ledger that resets to it never finds the
   opening ambiguous or invalid: it starts from the opening posts exactly when the epoch was opened by a posting.
   */
  lemma OpeningIsKnown(window: int, rows: seq<Row>, last: Option<int>)
    ensures var s := Run(Initial(window), rows);
      s.epoch.Some? ==>
        && s.epochEvents != []
        && var e := s.epochEvents[|s.epochEvents| - 1];
        var h := Opened(last, s.epoch, s.epochEvents);
        && EventsOf(s.epochEvents, s.epoch.value) == [e] && e.epoch == e.frame - 1
        && (e.status == MultiPostDeal ==>
              && e.posting.Some? && |e.posting.value.debits| >= 3
              && h.totals == Some(Posts(e.posting.value.debits)) && h.reasons == [])
        && (e.status != MultiPostDeal ==> h.totals == None && h.reasons == [OpeningIncomplete])
  {
    EpochsAlwaysInOrder(window, rows);
    var s := Run(Initial(window), rows);
    hide Run;
    if s.epoch.Some? {
      var n := |s.epochEvents| - 1;
      var e := s.epochEvents[n];
      forall i | 0 <= i < n ensures s.epochEvents[..n][i].epoch != s.epoch.value {
        assert s.epochEvents[i].epoch < s.epochEvents[n].epoch;
      }
      EventsOfNone(s.epochEvents[..n], s.epoch.value);
      assert EventsOf(s.epochEvents, s.epoch.value) == [] + [e];
      assert GoodEvent(e);
    }
  }
}

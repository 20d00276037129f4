/**
 What holds over whole runs of the state adapter: nothing published is ever rewritten, every glyph becomes
 exactly one action within the pairing window, and no cash is spent twice.
 */
module AdapterRuns {
  import opened Common
  import opened StateAdapter

  /** An observation that raises leaves the object as it was. */
  function Advance(s: Adapter, row: Row): Adapter
  {
    match Step(s, row)
    case Raised(_) => s
    case Ok(next) => next
  }

  function Run(s: Adapter, rows: seq<Row>): Adapter
  {
    if rows == [] then s else Advance(Run(s, rows[..|rows| - 1]), rows[|rows| - 1])
  }

  /** The step drops the money and glyphs gathered so far: a reset, or a new epoch. */
  predicate Renewed(s: Adapter, row: Row)
  {
    Interrupts(s, row) || |Prepared(s, row).epochEvents| > |s.epochEvents|
  }

  predicate SameHand(s: Adapter, d: Adapter)
  {
    && d.actions == s.actions && d.window == s.window && d.last == s.last && d.epochEvents == s.epochEvents
    && d.epoch == s.epoch && d.cash == s.cash && d.potChanges == s.potChanges && d.usedCash == s.usedCash
    && d.pending == s.pending
  }

  predicate NewHand(s: Adapter, d: Adapter)
  {
    && d.actions == s.actions && d.window == s.window && d.last == s.last && s.epochEvents < d.epochEvents
    && d.cash == [] && d.usedCash == {} && d.pending == [] && d.epoch.Some?
  }

  lemma EpochRenews(s: Adapter, frame: int, first: int, status: EpochStatus, posting: Option<Posting>)
    ensures NewHand(s, NewEpoch(s, frame, first, status, posting))
  {}

  lemma ConfirmKeeps(s: Adapter, row: Row)
    ensures SameHand(s, ConfirmHand(s, row)) || NewHand(s, ConfirmHand(s, row))
  {
    hide NewEpoch, ZeroPotDeal;
    if s.pendingHand.Some? {
      var p := s.pendingHand.value;
      EpochRenews(s, row.frame, p.first, MultiPostDeal, Some(p.comparison));
    }
  }

  lemma ProposeKeeps(s: Adapter, row: Row)
    ensures SameHand(s, ProposeHand(s, row))
  {
    hide PostingComparison, ZeroPotDeal;
  }

  lemma DealKeeps(s: Adapter, row: Row)
    ensures SameHand(s, FollowDeal(s, row)) || NewHand(s, FollowDeal(s, row))
  {
    hide ConfirmHand, ProposeHand, NewEpoch;
    var counted := s.(dealStreak := if DealSpot(row) then s.dealStreak + 1 else 0);
    var c := ConfirmHand(counted, row);
    ConfirmKeeps(counted, row);
    ProposeKeeps(c, row);
    EpochRenews(ProposeHand(c, row), row.frame, row.frame - 1, UnanchoredDeal, None);
  }

  lemma PreparedKeeps(s: Adapter, row: Row)
    ensures var p := Prepared(s, row);
      && p.actions == s.actions && p.window == s.window && p.last == Some(row.frame)
      && s.epochEvents <= p.epochEvents
      && (if Renewed(s, row) then p.cash == row.drops && p.usedCash == {} && p.pending == []
          else p.cash == s.cash + row.drops && s.potChanges <= p.potChanges && p.usedCash == s.usedCash
               && p.pending == s.pending && p.epoch == s.epoch)
  {
    hide FollowDeal, PotStep, PositiveBoardGeometry;
    var c := Cleared(s, row);
    DealKeeps(c, row);
    var d := FollowDeal(c, row);
    var f := FollowStreet(d, row);
    assert f == d.(street := f.street, boardSupported := f.boardSupported, geometryRun := f.geometryRun);
  }

  // ---------------------------------------------------------------- resolving

  function Stem(a: Action): (p: Pending)
    requires a.glyph.Some?
  {
    Pending(a.frame, a.slot, a.glyph.value, a.epoch, a.street)
  }

  /** The glyphs that a list of actions resolved, in order. */
  function Stems(actions: seq<Action>): seq<Pending>
  {
    if actions == [] then []
    else Stems(actions[..|actions| - 1]) +
         if actions[|actions| - 1].glyph.Some? then [Stem(actions[|actions| - 1])] else []
  }

  lemma StemsSnoc(actions: seq<Action>, a: Action)
    ensures Stems(actions + [a]) == Stems(actions) + if a.glyph.Some? then [Stem(a)] else []
  {
    assert (actions + [a])[..|actions|] == actions;
  }

  lemma {:induction false} RemoveFirstCounts<T>(s: seq<T>, x: T)
    ensures multiset(RemoveFirst(s, x)) == multiset(s) - multiset{x}
  {
    if s != [] {
      assert s == [s[0]] + s[1..];
      if s[0] != x { RemoveFirstCounts(s[1..], x); }
    }
  }

  predicate Overdue(window: int, frame: int, a: Pending)
  {
    Zero(a.glyph) || frame - a.frame > window
  }

  /** Part way through a pass over `start`: of the glyphs looked at, every overdue one has been resolved. */
  ghost predicate Balanced(
      start: seq<Pending>, pending: seq<Pending>, resolved: seq<Pending>, todo: seq<Pending>, window: int, frame: int)
  {
    && multiset(pending) + multiset(resolved) == multiset(start)
    && multiset(resolved) <= multiset(todo)
    && (forall a :: Overdue(window, frame, a) ==> multiset(resolved)[a] == multiset(todo)[a])
  }

  /** How one pass relates the state before it (s) and after its first glyphs (t). */
  ghost predicate PassSoFar(s: Adapter, t: Adapter, frame: int, todo: seq<Pending>)
  {
    && t == s.(pending := t.pending, actions := t.actions, usedCash := t.usedCash)
    && s.actions <= t.actions
    && Balanced(s.pending, t.pending, Stems(t.actions[|s.actions|..]), todo, s.window, frame)
  }

  lemma TakeOne(
      start: seq<Pending>, pending: seq<Pending>, resolved: seq<Pending>, todo: seq<Pending>, window: int, frame: int,
      a: Pending)
    requires Balanced(start, pending, resolved, todo, window, frame)
    requires multiset(todo + [a]) <= multiset(start)
    ensures Balanced(start, RemoveFirst(pending, a), resolved + [a], todo + [a], window, frame)
  {
    RemoveFirstCounts(pending, a);
    assert multiset(todo + [a]) == multiset(todo) + multiset{a};
    assert multiset(resolved + [a]) == multiset(resolved) + multiset{a};
    assert multiset(todo + [a])[a] <= multiset(start)[a];
    assert multiset(pending)[a] > 0;
  }

  lemma LeaveOne(
      start: seq<Pending>, pending: seq<Pending>, resolved: seq<Pending>, todo: seq<Pending>, window: int, frame: int,
      a: Pending)
    requires Balanced(start, pending, resolved, todo, window, frame) && !Overdue(window, frame, a)
    ensures Balanced(start, pending, resolved, todo + [a], window, frame)
  {
    hide Overdue;
    assert multiset(todo + [a]) == multiset(todo) + multiset{a};
  }

  lemma UnresolvedIsDue(t: Adapter, frame: int, a: Pending)
    requires !Resolves(t, frame, a)
    ensures !Overdue(t.window, frame, a)
  {
    hide Paired;
  }

  lemma ResolveShape(t: Adapter, frame: int, a: Pending)
    ensures var u := ResolveOne(t, frame, a);
      if Resolves(t, frame, a)
      then u == t.(usedCash := u.usedCash, pending := RemoveFirst(t.pending, a),
        actions := t.actions + [Resolution(t, frame, a)])
           && Resolution(t, frame, a).glyph.Some? && Stem(Resolution(t, frame, a)) == a
      else u == t
  {
    hide Paired, DebitFor, RemoveFirst;
  }

  lemma ResolveOneStep(s: Adapter, t: Adapter, frame: int, todo: seq<Pending>, a: Pending)
    requires PassSoFar(s, t, frame, todo)
    requires multiset(todo + [a]) <= multiset(s.pending)
    ensures PassSoFar(s, ResolveOne(t, frame, a), frame, todo + [a])
  {
    hide ResolveOne, Resolves, Resolution, Stem, Overdue, Paired, Balanced, RemoveFirst;
    var n, u := |s.actions|, ResolveOne(t, frame, a);
    ResolveShape(t, frame, a);
    if !Resolves(t, frame, a) {
      UnresolvedIsDue(t, frame, a);
      LeaveOne(s.pending, t.pending, Stems(t.actions[n..]), todo, s.window, frame, a);
    } else {
      var r := Resolution(t, frame, a);
      assert u.actions[n..] == t.actions[n..] + [r];
      StemsSnoc(t.actions[n..], r);
      TakeOne(s.pending, t.pending, Stems(t.actions[n..]), todo, s.window, frame, a);
    }
  }

  lemma {:induction false} ResolvePass(s: Adapter, frame: int, todo: seq<Pending>)
    requires multiset(todo) <= multiset(s.pending)
    ensures PassSoFar(s, ResolveAll(s, frame, todo), frame, todo)
  {
    if todo != [] {
      var init, a := todo[..|todo| - 1], todo[|todo| - 1];
      assert todo == init + [a];
      ResolvePass(s, frame, init);
      ResolveOneStep(s, ResolveAll(s, frame, init), frame, init, a);
    }
  }

  lemma CloseKeeps(t: Adapter, row: Row, n: nat)
    requires n <= |t.actions|
    ensures var u := Closed(t, row);
      && u == t.(actions := u.actions, history := u.history)
      && t.actions <= u.actions
      && Stems(u.actions[n..]) == Stems(t.actions[n..])
  {
    hide Remember;
    if row.shortCall.Some? {
      var c := ShortCallAction(t, row.frame, row.shortCall.value);
      assert (t.actions + [c])[n..] == t.actions[n..] + [c];
      StemsSnoc(t.actions[n..], c);
    }
  }

  lemma SettledBalance(s: Adapter, row: Row)
    ensures var p, t := Prepared(s, row), Settled(s, row);
      && s.actions <= t.actions && t.epochEvents == p.epochEvents && t.window == s.window && t.cash == p.cash
      && t.last == Some(row.frame)
      && Balanced(p.pending + Arrivals(p, row.glyphs), t.pending, Stems(t.actions[|s.actions|..]),
                  p.pending + Arrivals(p, row.glyphs), s.window, row.frame)
  {
    hide Prepared, ResolveAll, Arrivals, Balanced;
    PreparedKeeps(s, row);
    var p := WithGlyphs(Prepared(s, row), row);
    ResolvePass(p, row.frame, p.pending);
  }

  /** The glyphs an unblocked observation has to account for: those still waiting and those of this row. */
  function Due(s: Adapter, row: Row): seq<Pending>
  {
    (if Renewed(s, row) then [] else s.pending) + Arrivals(Prepared(s, row), row.glyphs)
  }

  /**
   One unblocked observation: nothing that should have been resolved stays pending, and nothing is lost or doubled.
   */
  lemma GlyphsAccounted(s: Adapter, row: Row)
    requires !BadFrame(s, row) && !Blocked(row)
    ensures var next := Advance(s, row);
      && s.actions <= next.actions
      && (forall a | a in next.pending :: !Zero(a.glyph) && row.frame - a.frame <= s.window)
      && multiset(next.pending) + multiset(Stems(next.actions[|s.actions|..])) == multiset(Due(s, row))
  {
    PreparedKeeps(s, row);
    hide Prepared, Settled, Renewed, Arrivals, Closed;
    SettledBalance(s, row);
    var t := Settled(s, row);
    CloseKeeps(t, row, |s.actions|);
    assert Due(s, row) == Prepared(s, row).pending + Arrivals(Prepared(s, row), row.glyphs);
    forall a | a in t.pending ensures !Overdue(s.window, row.frame, a) {
      assert multiset(t.pending)[a] > 0;
    }
  }

  /** No observation, reset or new epoch removes or rewrites an action or an epoch that was published. */
  lemma ActionsOnlyGrow(s: Adapter, row: Row)
    ensures s.actions <= Advance(s, row).actions && s.epochEvents <= Advance(s, row).epochEvents
      && Advance(s, row).window == s.window
  {
    if !BadFrame(s, row) && !Blocked(row) {
      PreparedKeeps(s, row);
      hide Prepared, Settled, Closed, Balanced;
      SettledBalance(s, row);
      CloseKeeps(Settled(s, row), row, 0);
    }
  }

  lemma {:induction false} HistoryIsAppendOnly(s: Adapter, rows: seq<Row>, k: nat)
    requires k <= |rows|
    ensures Run(s, rows[..k]).actions <= Run(s, rows).actions
      && Run(s, rows[..k]).epochEvents <= Run(s, rows).epochEvents
    ensures Run(s, rows).window == s.window
    decreases |rows|
  {
    hide Advance;
    if rows == [] {
    } else {
      var init := rows[..|rows| - 1];
      ActionsOnlyGrow(Run(s, init), rows[|rows| - 1]);
      if k < |rows| {
        assert init[..k] == rows[..k];
        HistoryIsAppendOnly(s, init, k);
      } else {
        assert rows[..k] == rows;
        HistoryIsAppendOnly(s, init, 0);
      }
    }
  }

  // ---------------------------------------------------------------- every glyph becomes one action

  /** A run of accepted frames without a gap, a blocked scene or a new epoch. */
  predicate Uninterrupted(s: Adapter, rows: seq<Row>)
  {
    rows == [] ||
    (var init, row := rows[..|rows| - 1], rows[|rows| - 1];
     Uninterrupted(s, init) && !BadFrame(Run(s, init), row) && !Blocked(row) && !Renewed(Run(s, init), row))
  }

  /** Every glyph transition the rows brought, stamped with the epoch and street it arrived in. */
  function Arrived(s: Adapter, rows: seq<Row>): seq<Pending>
  {
    if rows == [] then []
    else
      var init, row := rows[..|rows| - 1], rows[|rows| - 1];
      Arrived(s, init) + Arrivals(Prepared(Run(s, init), row), row.glyphs)
  }

  /**
   On an uninterrupted run the glyphs waiting before it and those it brought are exactly the glyphs of the actions
   it published together with those still waiting; and those still waiting are recent and carry money.
   */
  lemma {:induction false} EveryGlyphBecomesOneAction(s: Adapter, rows: seq<Row>)
    requires Uninterrupted(s, rows)
    ensures var t := Run(s, rows);
      && s.actions <= t.actions
      && multiset(t.pending) + multiset(Stems(t.actions[|s.actions|..])) == multiset(s.pending)
        + multiset(Arrived(s, rows))
      && (rows != [] ==> forall a | a in t.pending :: !Zero(a.glyph) && rows[|rows| - 1].frame - a.frame <= s.window)
  {
    if rows == [] {
    } else {
      var init, row := rows[..|rows| - 1], rows[|rows| - 1];
      EveryGlyphBecomesOneAction(s, init);
      HistoryIsAppendOnly(s, init, 0);
      OneMoreRow(Run(s, init), row, s.actions, multiset(s.pending), Arrived(s, init));
      hide Advance, Uninterrupted, Zero;
    }
  }

  lemma Carry<T>(
      before: seq<T>, after: seq<T>, done: seq<T>, more: seq<T>, start: multiset<T>, arrived: seq<T>, arrivals: seq<T>)
    requires multiset(before) + multiset(done) == start + multiset(arrived)
    requires multiset(after) + multiset(more) == multiset(before + arrivals)
    ensures multiset(after) + multiset(done + more) == start + multiset(arrived + arrivals)
  {
    calc {
      multiset(after) + multiset(done + more);
      (multiset(after) + multiset(more)) + multiset(done);
      multiset(before) + multiset(arrivals) + multiset(done);
      start + multiset(arrived) + multiset(arrivals);
      start + multiset(arrived + arrivals);
    }
  }

  /** Accounts taken from a fixed list of earlier actions on carry over one more unblocked, unrenewed row. */
  lemma OneMoreRow(u: Adapter, row: Row, before: seq<Action>, start: multiset<Pending>, arrived: seq<Pending>)
    requires !BadFrame(u, row) && !Blocked(row) && !Renewed(u, row)
    requires before <= u.actions
    requires multiset(u.pending) + multiset(Stems(u.actions[|before|..])) == start + multiset(arrived)
    ensures var t := Advance(u, row);
      && before <= t.actions
      && multiset(t.pending) + multiset(Stems(t.actions[|before|..])) == start
        + multiset(arrived + Arrivals(Prepared(u, row), row.glyphs))
      && forall a | a in t.pending :: !Zero(a.glyph) && row.frame - a.frame <= u.window
  {
    GlyphsAccounted(u, row);
    assert Due(u, row) == u.pending + Arrivals(Prepared(u, row), row.glyphs);
    hide Advance, Renewed, Arrivals, Prepared, Stems, Due, Zero, BadFrame, Blocked;
    var t, n := Advance(u, row), |before|;
    StemsSplit(t.actions, n, |u.actions|);
    assert t.actions[..|u.actions|] == u.actions;
    Carry(u.pending, t.pending, Stems(u.actions[n..]), Stems(t.actions[|u.actions|..]), start, arrived,
      Arrivals(Prepared(u, row), row.glyphs));
  }

  lemma {:induction false} StemsConcat(xs: seq<Action>, ys: seq<Action>)
    ensures Stems(xs + ys) == Stems(xs) + Stems(ys)
  {
    if ys == [] {
      assert xs + ys == xs;
    } else {
      var init, y := ys[..|ys| - 1], ys[|ys| - 1];
      assert xs + ys == (xs + init) + [y] && ys == init + [y];
      StemsSnoc(xs + init, y);
      StemsConcat(xs, init);
    }
  }

  lemma StemsSplit(actions: seq<Action>, i: nat, j: nat)
    requires i <= j <= |actions|
    ensures Stems(actions[i..]) == Stems(actions[..j][i..]) + Stems(actions[j..])
  {
    assert actions[i..] == actions[..j][i..] + actions[j..];
    StemsConcat(actions[..j][i..], actions[j..]);
  }

  /** A glyph older than the pairing window has been published exactly as often as it arrived. */
  lemma ResolvedWithinWindow(s: Adapter, rows: seq<Row>, a: Pending)
    requires rows != [] && Uninterrupted(s, rows)
    requires Zero(a.glyph) || rows[|rows| - 1].frame - a.frame > s.window
    ensures var t := Run(s, rows);
      && s.actions <= t.actions
      && multiset(Stems(t.actions[|s.actions|..]))[a] == multiset(s.pending)[a] + multiset(Arrived(s, rows))[a]
  {
    hide Arrived, Run, Advance;
    EveryGlyphBecomesOneAction(s, rows);
    var t := Run(s, rows);
    assert a !in t.pending;
    assert (multiset(t.pending) + multiset(Stems(t.actions[|s.actions|..])))[a] ==
      (multiset(s.pending) + multiset(Arrived(s, rows)))[a];
  }
}

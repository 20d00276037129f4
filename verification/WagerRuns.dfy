/**
 The wager ledger and the adapter run together: what a published ledger means, and why a street whose first
 action was missed is never published.
 */
module WagerRuns {
  import opened Common
  import opened StateAdapter
  import opened AdapterRuns
  import opened StreetBaseline
  import opened LiveWagers

  // ---------------------------------------------------------------- exactly once

  function Ids(actions: seq<Action>): set<Identity>
  {
    set a | a in actions :: IdentityOf(a)
  }

  /** The first action of each identity. */
  function FirstOnes(actions: seq<Action>): seq<Action>
  {
    if actions == [] then []
    else
      var init, a := actions[..|actions| - 1], actions[|actions| - 1];
      FirstOnes(init) + if IdentityOf(a) in Ids(init) then [] else [a]
  }

  function DebitOf(a: Action): real
  {
    if Amount(a.amount).Some? then a.amount.value else 0.0
  }

  function SeatDebits(actions: seq<Action>, s: int): real
  {
    if actions == [] then 0.0
    else
      var a := actions[|actions| - 1];
      SeatDebits(actions[..|actions| - 1], s) + if a.slot == s then DebitOf(a) else 0.0
  }

  function AllDebits(actions: seq<Action>): real
  {
    if actions == [] then 0.0 else AllDebits(actions[..|actions| - 1]) + DebitOf(actions[|actions| - 1])
  }

  lemma {:induction false} SumUpdate(wagers: seq<Wager>, s: nat, delta: real)
    requires s < |wagers| && wagers[s].Chips?
    ensures Sum(wagers[s := Chips(wagers[s].value + delta)]) == Sum(wagers) + delta
    decreases |wagers|
  {
    var after := wagers[s := Chips(wagers[s].value + delta)];
    var n := |wagers| - 1;
    if s < n {
      SumUpdate(wagers[..n], s, delta);
      assert after[..n] == wagers[..n][s := Chips(wagers[s].value + delta)];
    } else {
      assert after[..n] == wagers[..n];
    }
  }

  /** The totals are the first wagers plus each identity's first amount, seat by seat and in all. */
  ghost predicate Adds(start: seq<Wager>, actions: seq<Action>, t: Applied)
  {
    && |t.totals| == |start|
    && (forall s | 0 <= s < |start| :: t.totals[s].Chips? <==> start[s].Chips?)
    && (forall s | 0 <= s < |start| && start[s].Chips? :: t.totals[s].value == start[s].value + SeatDebits(actions, s))
    && Sum(t.totals) == Sum(start) + AllDebits(actions)
  }

  lemma IdsSnoc(actions: seq<Action>, a: Action)
    ensures Ids(actions + [a]) == Ids(actions) + {IdentityOf(a)}
  {
    assert forall x :: x in actions + [a] <==> x in actions || x == a;
  }

  lemma AddsOne(start: seq<Wager>, firsts: seq<Action>, t: Applied, a: Action)
    requires Adds(start, firsts, t) && Addable(a, t.totals)
    ensures Adds(start, firsts + [a],
      Applied(t.totals[a.slot := Chips(t.totals[a.slot].value + a.amount.value)], t.used + {IdentityOf(a)}))
  {
    assert (firsts + [a])[..|firsts|] == firsts;
    SumUpdate(t.totals, a.slot, a.amount.value);
  }

  lemma AddsStep(start: seq<Wager>, init: seq<Action>, a: Action, u: Applied, t: Applied)
    requires u.used == Ids(init) && Adds(start, FirstOnes(init), u)
    requires ApplyOne(u, a) == Some(t)
    ensures t.used == Ids(init + [a]) && Adds(start, FirstOnes(init + [a]), t)
  {
    hide Adds, Addable;
    assert (init + [a])[..|init|] == init;
    IdsSnoc(init, a);
    if IdentityOf(a) in u.used {
      assert FirstOnes(init) + [] == FirstOnes(init);
      assert FirstOnes(init + [a]) == FirstOnes(init);
    } else {
      AddsOne(start, FirstOnes(init), u, a);
    }
  }

  lemma {:induction false} ApplyAdds(start: seq<Wager>, actions: seq<Action>, t: Applied)
    requires Apply(Applied(start, {}), actions) == Some(t)
    ensures t.used == Ids(actions) && Adds(start, FirstOnes(actions), t)
  {
    if actions == [] {
      NothingAdded(start);
    } else {
      hide Adds, ApplyOne, FirstOnes, Ids;
      var init, a := actions[..|actions| - 1], actions[|actions| - 1];
      var u := Apply(Applied(start, {}), init).value;
      ApplyAdds(start, init, u);
      AddsStep(start, init, a, u, t);
      assert actions == init + [a];
    }
  }

  lemma NothingAdded(start: seq<Wager>)
    ensures Adds(start, [], Applied(start, {}))
  {}

  /** The kept actions carry all identities, each of them once. */
  lemma {:induction false} FirstOnesAreDistinct(actions: seq<Action>)
    ensures Ids(FirstOnes(actions)) == Ids(actions) && |FirstOnes(actions)| == |Ids(actions)|
    ensures forall a | a in FirstOnes(actions) :: a in actions
  {
    if actions != [] {
      var init, a := actions[..|actions| - 1], actions[|actions| - 1];
      assert actions == init + [a];
      FirstOnesAreDistinct(init);
      IdsSnoc(init, a);
      if IdentityOf(a) !in Ids(init) {
        IdsSnoc(FirstOnes(init), a);
      } else {
        assert FirstOnes(actions) == FirstOnes(init) && Ids(actions) == Ids(init);
      }
    }
  }

  lemma {:induction false} ApplySplit(t: Applied, xs: seq<Action>, ys: seq<Action>)
    ensures Apply(t, xs + ys) == (if Apply(t, xs).None? then None else Apply(Apply(t, xs).value, ys))
  {
    hide ApplyOne;
    if ys == [] {
      assert xs + ys == xs;
    } else {
      var init, y := ys[..|ys| - 1], ys[|ys| - 1];
      assert (xs + ys)[..|xs + ys| - 1] == xs + init;
      ApplySplit(t, xs, init);
    }
  }

  lemma {:induction false} SkipUsed(t: Applied, actions: seq<Action>)
    requires Ids(actions) <= t.used
    ensures Apply(t, actions) == Some(t)
  {
    if actions != [] {
      var init, a := actions[..|actions| - 1], actions[|actions| - 1];
      assert actions == init + [a];
      IdsSnoc(init, a);
      SkipUsed(t, init);
    }
  }

  /** Going through a grown action list again adds the new actions only. */
  lemma ApplyAgain(start: seq<Wager>, before: seq<Action>, more: seq<Action>, t: Applied)
    requires Apply(Applied(start, {}), before) == Some(t)
    ensures Apply(t, before + more) == Apply(Applied(start, {}), before + more)
  {
    ApplyAdds(start, before, t);
    SkipUsed(t, before);
    ApplySplit(t, before, more);
    ApplySplit(Applied(start, {}), before, more);
  }

  lemma {:induction false} ActionsOfPrefix(before: seq<Action>, after: seq<Action>, k: Key)
    requires before <= after
    ensures ActionsOf(before, k) <= ActionsOf(after, k)
  {
    if before == after {
    } else {
      assert before <= after[..|after| - 1];
      ActionsOfPrefix(before, after[..|after| - 1], k);
    }
  }

  // ---------------------------------------------------------------- the invariant

  predicate Keyed(w: Ledger, k: Key)
  {
    w.key == Some(Observed(Some(k.epoch), Some(k.street)))
  }

  predicate SoundView(v: View)
  {
    && |v.wagers| == SEATS
    && v.title == v.center + Sum(v.wagers)
    && (exists s | 0 <= s < SEATS :: v.wagers[s].Chips?)
    && (forall s | 0 <= s < SEATS && v.wagers[s].Chips? :: v.wagers[s].value >= 0.0)
  }

  /** The totals a ledger holds account for exactly the actions `seen`, from a sound baseline of its own key. */
  predicate Accounts(w: Ledger, seen: seq<Action>)
  {
    w.baseline.Some? &&
    var v := w.baseline.value.view;
    SoundView(v) && Keyed(w, v.epoch) && Apply(Applied(v.wagers, {}), ActionsOf(seen, v.epoch)) ==
      Some(Applied(w.totals, w.used))
  }

  ghost predicate Sound(w: Ledger, actions: seq<Action>)
  {
    if w.baseline.None? then w.totals == [] && w.used == {}
    else exists n: nat :: n <= |actions| && Accounts(w, actions[..n])
  }

  lemma SoundGrows(w: Ledger, before: seq<Action>, after: seq<Action>)
    requires Sound(w, before) && before <= after
    ensures Sound(w, after)
  {
    hide Accounts;
    if w.baseline.Some? {
      var n: nat :| n <= |before| && Accounts(w, before[..n]);
      assert before[..n] == after[..n];
    }
  }

  predicate LastPosted(events: seq<EpochEvent>, epoch: int)
  {
    exists i | 0 <= i < |events| :: events[i].epoch == epoch && events[i].status == MultiPostDeal
      && forall j | i < j < |events| :: events[j].epoch != epoch
  }

  lemma {:induction false} PostedExactly(events: seq<EpochEvent>, epoch: int)
    ensures LastStatus(events, epoch) == Some(MultiPostDeal) <==> LastPosted(events, epoch)
  {
    if events != [] {
      var n := |events| - 1;
      var init := events[..n];
      PostedExactly(init, epoch);
      if events[n].epoch != epoch {
        if LastPosted(init, epoch) {
          var i :| 0 <= i < n && init[i].epoch == epoch && init[i].status == MultiPostDeal
            && forall j | i < j < n :: init[j].epoch != epoch;
          assert events[i] == init[i];
          assert forall j | i < j < n :: events[j] == init[j];
        }
        if LastPosted(events, epoch) {
          var i :| 0 <= i <= n && events[i].epoch == epoch && events[i].status == MultiPostDeal
            && forall j | i < j <= n :: events[j].epoch != epoch;
          assert init[i] == events[i];
          assert forall j | i < j < n :: init[j] == events[j];
        }
      }
    }
  }

  /** A preflop street is published only for an epoch whose last event was opened by a posting. */
  predicate DealAnchored(a: Adapter)
  {
    KeyNow(a).stage == Some(Preflop) && KeyNow(a).epoch.Some? ==> LastPosted(a.epochEvents, KeyNow(a).epoch.value)
  }

  /** What a published ledger says about the adapter it read and the display it was checked against. */
  ghost predicate Faithful(o: Outcome, w: Ledger, a: Adapter, d: Display)
    requires o.Published?
  {
    w.baseline.Some? &&
    var b := w.baseline.value;
    var v := b.view;
    var firsts := FirstOnes(ActionsOf(a.actions, v.epoch));
    && KeyNow(a) == Observed(Some(v.epoch.epoch), Some(v.epoch.street)) && SoundView(v)
    && o.first == b.first && o.second == b.second && o.applied == |firsts|
    && Adds(v.wagers, firsts, Applied(o.wagers, Ids(ActionsOf(a.actions, v.epoch))))
    && Value(d.title) == Some(v.title + AllDebits(firsts)) && Value(d.center) == Some(v.center)
    && !Waiting(a.pending, v.epoch)
    && (forall s | 0 <= s < SEATS ::
          if d.wagers[s] == Missing then d.visibility[s] == VisibleEmpty
          else Value(d.wagers[s]) == Amount(Numeric(o.wagers[s])))
    && (forall s | 0 <= s < SEATS && o.wagers[s].Chips? :: o.wagers[s].value <= o.price)
    && (exists s | 0 <= s < SEATS :: o.wagers[s] == Chips(o.price))
  }

  lemma ComparedFaithful(w: Ledger, frame: int, k: Key, a: Adapter, d: Display, b: Baseline)
    requires w.baseline == Some(b) && b.view.epoch == k && KeyNow(a) == Observed(Some(k.epoch), Some(k.street))
    requires Accounts(w, a.actions)
    requires Value(d.center) == Some(b.view.center)
    ensures var r := Compared(w, frame, k, a, d, b, b.view.center);
      && Sound(r.next, a.actions)
      && (r.outcome.Published? ==> Faithful(r.outcome, r.next, a, d) && r.next.baseline == Some(b) && Keyed(r.next, k))
  {
    hide ActionsOf, Waiting, Apply, Sum, Price, Stage, FirstOnes, AllDebits, Ids, SoundView;
    var r := Compared(w, frame, k, a, d, b, b.view.center);
    assert a.actions[..|a.actions|] == a.actions;
    if r.next.baseline.Some? {
      assert r.next == w.(signature := r.next.signature, conflictStart := r.next.conflictStart);
      assert Accounts(r.next, a.actions[..|a.actions|]);
    }
    if r.outcome.Published? {
      var acts := ActionsOf(a.actions, k);
      ApplyAdds(b.view.wagers, acts, Applied(w.totals, w.used));
      FirstOnesAreDistinct(acts);
      PriceIsMaximum(w.totals);
      assert |w.totals| == SEATS by { assert SoundView(b.view); LengthOf(b.view); }
      assert !AnyContradiction(d, w.totals) && !AnyUnknownRegion(d);
      forall s | 0 <= s < SEATS
        ensures if d.wagers[s] == Missing then d.visibility[s] == VisibleEmpty
                else Value(d.wagers[s]) == Amount(Numeric(w.totals[s]))
      {
        assert !Contradicts(d, w.totals, s) && !UnknownRegion(d, s);
      }
      TitleOf(b.view);
    }
  }

  lemma LengthOf(v: View)
    requires SoundView(v)
    ensures |v.wagers| == SEATS
  {}

  lemma TitleOf(v: View)
    requires SoundView(v)
    ensures v.title == v.center + Sum(v.wagers)
  {}

  lemma AccountedFaithful(w: Ledger, frame: int, k: Key, a: Adapter, d: Display, b: Baseline, n: nat)
    requires w.baseline == Some(b) && b.view.epoch == k && KeyNow(a) == Observed(Some(k.epoch), Some(k.street))
    requires n <= |a.actions| && Accounts(w, a.actions[..n])
    ensures var r := Accounted(w, frame, k, a, d, b);
      && Sound(r.next, a.actions)
      && (r.outcome.Published? ==> Faithful(r.outcome, r.next, a, d) && Keyed(r.next, k))
  {
    hide Compared, Faithful, ActionsOf, Stage, SoundView;
    var center := Value(d.center);
    if center == Some(b.view.center) {
      var before, acts := ActionsOf(a.actions[..n], k), ActionsOf(a.actions, k);
      ActionsOfPrefix(a.actions[..n], a.actions, k);
      assert acts == before + acts[|before|..];
      ApplyAgain(b.view.wagers, before, acts[|before|..], Applied(w.totals, w.used));
      match Apply(Applied(w.totals, w.used), acts)
      case None =>
      case Some(t) => ComparedFaithful(w.(totals := t.totals, used := t.used), frame, k, a, d, b);
    } else if center.None? {
      var r := Accounted(w, frame, k, a, d, b);
      assert Accounts(r.next, a.actions[..n]);
    }
  }

  lemma BasedFaithful(w: Ledger, row: Row, k: Key, a: Adapter, d: Display)
    requires Sound(w, a.actions) && Keyed(w, k) && KeyNow(a) == Observed(Some(k.epoch), Some(k.street))
    ensures var r := Based(w, row, k, a, d);
      && Sound(r.next, a.actions)
      && (r.outcome.Published? ==> Faithful(r.outcome, r.next, a, d) && Keyed(r.next, k))
  {
    hide Accounted, Faithful, Stage, NothingYet, Evidence;
    if w.baseline.Some? {
      var n: nat :| n <= |a.actions| && Accounts(w, a.actions[..n]);
      AccountedFaithful(w, row.frame, k, a, d, w.baseline.value, n);
    } else {
      var o, c := CurrentOf(row, d), ContextOf(row, a, k);
      var tracked := Track(w.previous, row.frame, o, c);
      if tracked.1.Ok? && tracked.1.value.Conditional? {
        var b := tracked.1.value.baseline;
        BaselineView(w.previous, row.frame, o, c, b);
        var seen := w.(previous := tracked.0, baseline := Some(b), totals := b.view.wagers);
        assert b.view.epoch == k;
        assert a.actions[..0] == [];
        assert Accounts(seen, a.actions[..0]);
        AccountedFaithful(seen, row.frame, k, a, d, b, 0);
      }
    }
  }

  /** A fresh baseline is sound, belongs to the context's key, and no action of that key is on record. */
  lemma BaselineView(previous: Option<(int, Partition)>, frame: int, o: Observation, c: Context, b: Baseline)
    requires Track(previous, frame, o, c).1 == Ok(Conditional(b))
    ensures SoundView(b.view) && c.epoch == Some(b.view.epoch) && c.noEarlierActions
  {
    ConsistentMeans(o, c, Consistent(b.view));
    hide Evidence, ReadSeats, ReadSeat;
    var v := b.view;
    var s :| 0 <= s < SEATS && v.wagers[s] == Chips(v.price);
    assert v.wagers[s].Chips?;
    forall s | 0 <= s < SEATS && v.wagers[s].Chips? ensures v.wagers[s].value >= 0.0 { assert !c.absent[s]; }
  }

  lemma RekeyedSound(w: Ledger, frame: int, now: Observed, actions: seq<Action>)
    requires Sound(w, actions)
    ensures Sound(Rekeyed(w, frame, now), actions) && Rekeyed(w, frame, now).key == Some(now)
  {
    var r := Rekeyed(w, frame, now);
    if w.key == Some(now) && w.baseline.Some? {
      var n: nat :| n <= |actions| && Accounts(w, actions[..n]);
      assert Accounts(r, actions[..n]);
    }
  }

  lemma ObservingFaithful(w: Ledger, row: Row, a: Adapter, d: Display)
    requires Sound(w, a.actions)
    ensures var r := Observing(w, row, a, d);
      && Sound(r.next, a.actions)
      && (r.outcome.Published? ==>
            Faithful(r.outcome, r.next, a, d) && r.next.key == Some(KeyNow(a)) && DealAnchored(a))
  {
    hide Based, Faithful, Stage;
    var now := KeyNow(a);
    RekeyedSound(w, row.frame, now, a.actions);
    hide Sound, Rekeyed;
    assert Sound(Invalidated(Rekeyed(w, row.frame, now)),
      a.actions) by { InvalidatedSound(Rekeyed(w, row.frame, now), a.actions); }
    if now.stage.Some? && now.epoch.Some? {
      PostedExactly(a.epochEvents, now.epoch.value);
      hide LastPosted, LastStatus;
      BasedFaithful(Rekeyed(w, row.frame, now), row, Key(now.epoch.value, now.stage.value), a, d);
    }
  }

  lemma InvalidatedSound(w: Ledger, actions: seq<Action>)
    ensures Sound(Invalidated(w), actions)
  {}

  // ---------------------------------------------------------------- joint runs

  /** One frame: the adapter consumes the row, then the ledger may be shown the display of the same frame. */
  datatype Input = Input(row: Row, display: Option<Display>)

  datatype Joint = Joint(adapter: Adapter, wagers: Ledger, outcome: Option<Outcome>)

  function Together(j: Joint, i: Input): Joint
  {
    if Step(j.adapter, i.row).Raised? then Joint(j.adapter, j.wagers, None)
    else
      var a := Advance(j.adapter, i.row);
      if i.display.None? then Joint(a, j.wagers, None)
      else
        var r := Observing(j.wagers, i.row, a, i.display.value);
        Joint(a, r.next, Some(r.outcome))
  }

  function RunTogether(j: Joint, inputs: seq<Input>): Joint
  {
    if inputs == [] then j else Together(RunTogether(j, inputs[..|inputs| - 1]), inputs[|inputs| - 1])
  }

  lemma TogetherSound(j: Joint, i: Input)
    requires Sound(j.wagers, j.adapter.actions)
    ensures Sound(Together(j, i).wagers, Together(j, i).adapter.actions)
    ensures Together(j, i).outcome.Some? && Together(j, i).outcome.value.Published? ==>
      i.display.Some?
        && Faithful(Together(j, i).outcome.value, Together(j, i).wagers, Together(j, i).adapter, i.display.value)
      && Together(j, i).wagers.key == Some(KeyNow(Together(j, i).adapter)) && DealAnchored(Together(j, i).adapter)
  {
    ActionsOnlyGrow(j.adapter, i.row);
    hide Step, Advance, Observing, Faithful, Sound, Stage, DealAnchored;
    var a := Advance(j.adapter, i.row);
    SoundGrows(j.wagers, j.adapter.actions, a.actions);
    if i.display.Some? { ObservingFaithful(j.wagers, i.row, a, i.display.value); }
  }

  lemma {:induction false} RunSound(window: int, inputs: seq<Input>)
    ensures var j := RunTogether(Joint(Initial(window), Empty(), None), inputs); Sound(j.wagers, j.adapter.actions)
  {
    if inputs == [] {
    } else {
      RunSound(window, inputs[..|inputs| - 1]);
      hide Together;
      TogetherSound(RunTogether(Joint(Initial(window), Empty(), None), inputs[..|inputs| - 1]), inputs[|inputs| - 1]);
    }
  }

  /**
   Whenever a ledger is published, on any run: its totals are the baseline wagers plus the first action of every
   identity of that epoch and street, no glyph of the street is waiting, and the displayed title is the baseline
   title plus those debits with the center unchanged; preflop, the epoch's last event was opened by a posting.
   */
  lemma PublishedLedgerIsFaithful(window: int, inputs: seq<Input>)
    requires inputs != []
    ensures var j := RunTogether(Joint(Initial(window), Empty(), None), inputs);
      j.outcome.Some? && j.outcome.value.Published? ==>
        inputs[|inputs| - 1].display.Some?
        && Faithful(j.outcome.value, j.wagers, j.adapter, inputs[|inputs| - 1].display.value)
        && j.wagers.key == Some(KeyNow(j.adapter)) && DealAnchored(j.adapter)
  {
    RunSound(window, inputs[..|inputs| - 1]);
    hide Together, Sound, Faithful, DealAnchored;
    TogetherSound(RunTogether(Joint(Initial(window), Empty(), None), inputs[..|inputs| - 1]), inputs[|inputs| - 1]);
  }

  // ---------------------------------------------------------------- lock-out

  /** An action of the key is on record and the ledger holds no baseline for it. */
  predicate LockedOut(j: Joint, k: Key)
  {
    ActionsOf(j.adapter.actions, k) != [] && !(Keyed(j.wagers, k) && j.wagers.baseline.Some?)
  }

  lemma AccountedKeeps(w: Ledger, frame: int, k: Key, a: Adapter, d: Display, b: Baseline)
    ensures Accounted(w, frame, k, a, d, b).next.key == w.key
  {
    hide Apply, AnyContradiction, AnyUnknownRegion, Waiting, Sum, Price, ActionsOf;
  }

  lemma ObservingLocked(w: Ledger, row: Row, a: Adapter, d: Display, k: Key)
    requires ActionsOf(a.actions, k) != [] && !(Keyed(w, k) && w.baseline.Some?)
    ensures var r := Observing(w, row, a, d);
      && !(Keyed(r.next, k) && r.next.baseline.Some?)
      && (r.outcome.Published? ==> KeyNow(a) != Observed(Some(k.epoch), Some(k.street)))
  {
    hide Accounted, Stage, Evidence;
    var now := KeyNow(a);
    var rekeyed := Rekeyed(w, row.frame, now);
    if now.stage.Some? && now.epoch.Some? {
      var m := Key(now.epoch.value, now.stage.value);
      var o, c := CurrentOf(row, d), ContextOf(row, a, m);
      var tracked := Track(rekeyed.previous, row.frame, o, c);
      if rekeyed.baseline.Some? {
        AccountedKeeps(rekeyed, row.frame, m, a, d, rekeyed.baseline.value);
      } else if tracked.1.Ok? && tracked.1.value.Conditional? {
        var b := tracked.1.value.baseline;
        BaselineView(rekeyed.previous, row.frame, o, c, b);
        AccountedKeeps(rekeyed.(previous := tracked.0, baseline := Some(b), totals := b.view.wagers), row.frame, m, a,
          d, b);
      }
    }
  }

  lemma TogetherLocked(j: Joint, i: Input, k: Key)
    requires LockedOut(j, k)
    ensures var next := Together(j, i);
      && LockedOut(next, k)
      && (next.outcome.Some? && next.outcome.value.Published? ==>
        KeyNow(next.adapter) != Observed(Some(k.epoch), Some(k.street)))
  {
    ActionsOnlyGrow(j.adapter, i.row);
    hide Step, Advance, Observing, Stage;
    var a := Advance(j.adapter, i.row);
    ActionsOfPrefix(j.adapter.actions, a.actions, k);
    if i.display.Some? { ObservingLocked(j.wagers, i.row, a, i.display.value, k); }
  }

  /**
   Once the adapter has an action of an epoch and street for which no baseline is held, that street is never
   published again, however the run goes on: through gaps, other streets and back.
   */
  lemma {:induction false} MissedStreetStaysHidden(j: Joint, inputs: seq<Input>, k: Key)
    requires LockedOut(j, k)
    ensures var next := RunTogether(j, inputs);
      && LockedOut(next, k)
      && (inputs != [] && next.outcome.Some? && next.outcome.value.Published? ==>
            KeyNow(next.adapter) != Observed(Some(k.epoch), Some(k.street)))
  {
    hide LockedOut, Together, Stage;
    if inputs == [] {
    } else {
      MissedStreetStaysHidden(j, inputs[..|inputs| - 1], k);
      TogetherLocked(RunTogether(j, inputs[..|inputs| - 1]), inputs[|inputs| - 1], k);
    }
  }
}

/**
 Exactly when the wager ledger is published: both directions, said of the row, the display and the adapter's lists.
 */
module WagerRules {
  import opened Common
  import opened StateAdapter
  import opened StreetBaseline
  import opened LiveWagers
  import opened WagerRuns

  // ---------------------------------------------------------------- the street of the frame

  function Cards(s: Option<Street>): int
  {
    if s == Some(River) then 5 else if s == Some(Turn) then 4 else if s == Some(Flop) then 3 else 0
  }

  /** A board of three to five cards decides, unless it is behind the street the adapter knows. */
  predicate StageIs(a: Adapter, stage: Option<Street>)
  {
    var supported := if a.boardSupported then a.street else None;
    if a.geometryRun.Some? && 3 <= a.geometryRun.value.count <= 5
       && a.geometryRun.value.count >= Cards(supported) && a.geometryRun.value.count >= Cards(a.street)
    then stage.Some? && Cards(stage) == a.geometryRun.value.count else stage == supported
  }

  lemma StageExactly(a: Adapter, stage: Option<Street>)
    ensures Stage(a) == stage <==> StageIs(a, stage)
  {}

  /** The ledger and the adapter agree on the frame, nothing covers the table, and epoch and street are known. */
  predicate Opens(w: Ledger, row: Row, a: Adapter, k: Key)
  {
    && a.last == Some(row.frame) && (w.last.Some? ==> row.frame == w.last.value + 1)
    && row.sceneSupported && !row.modal && a.epoch == Some(k.epoch) && StageIs(a, Some(k.street))
  }

  /** Preflop, the last event of the epoch was opened by a posting. */
  predicate Anchored(a: Adapter, k: Key)
  {
    k.street == Preflop ==> LastPosted(a.epochEvents, k.epoch)
  }

  // ---------------------------------------------------------------- the baseline

  predicate OfStreet(epoch: Option<int>, street: Option<Street>, k: Key)
  {
    epoch == Some(k.epoch) && street == Some(k.street)
  }

  /** No action, no waiting glyph and no money of the street is on record. */
  predicate Untouched(a: Adapter, k: Key)
  {
    && (forall i | 0 <= i < |a.actions| :: !OfStreet(a.actions[i].epoch, a.actions[i].street, k))
    && (forall i | 0 <= i < |a.pending| :: !OfStreet(a.pending[i].epoch, a.pending[i].street, k))
    && (forall i | 0 <= i < |a.cash| :: a.cash[i].street != Some(k.street))
  }

  /** The context a baseline is sought in. */
  predicate Starting(row: Row, a: Adapter, k: Key, c: Context)
  {
    && c.epoch == Some(k) && c.newStreet && !c.collectionOrModal && (c.noEarlierActions <==> Untouched(a, k))
    && forall s | 0 <= s < SEATS :: c.absent[s] <==> (row.cues[s] == EmptyCue || row.cues[s] == WaitingCue)
  }

  function Looked(row: Row, d: Display): Observation
  {
    Observation(row.sceneSupported, row.sceneSupported
      && !row.modal, d.actor, d.actorFresh, d.title, d.center, d.wagers,
      d.visibility)
  }

  lemma {:induction false} NoneOf(actions: seq<Action>, k: Key)
    ensures ActionsOf(actions, k) == [] <==>
            forall i | 0 <= i < |actions| :: !OfStreet(actions[i].epoch, actions[i].street, k)
  {
    if actions != [] {
      var n := |actions| - 1;
      NoneOf(actions[..n], k);
      if OfStreet(actions[n].epoch, actions[n].street, k) {
        assert ActionsOf(actions, k)[|ActionsOf(actions[..n], k)|] == actions[n];
      }
      assert forall i | 0 <= i < n :: actions[..n][i] == actions[i];
    }
  }

  lemma ActionsNext(actions: seq<Action>, k: Key)
    requires actions != []
    ensures var n := |actions| - 1;
      ActionsOf(actions, k) ==
        if OfStreet(actions[n].epoch, actions[n].street, k) then ActionsOf(actions[..n], k) + [actions[n]]
        else ActionsOf(actions[..n], k)
  {
    assert ActionsOf(actions[..|actions| - 1], k) + [] == ActionsOf(actions[..|actions| - 1], k);
  }

  /** The actions a frame accounts for are those of its epoch and street, in order. */
  lemma {:induction false} PickedExactly(actions: seq<Action>, k: Key, keep: Action -> bool) returns (at: seq<int>)
    requires forall a: Action :: keep(a) <==> OfStreet(a.epoch, a.street, k)
    ensures Picks(actions, keep, ActionsOf(actions, k), at)
  {
    at := [];
    if actions != [] {
      var init := actions[..|actions| - 1];
      ActionsNext(actions, k);
      hide ActionsOf, Picks, OfStreet;
      at := PickedExactly(init, k, keep);
      at := PicksNext(actions, keep, ActionsOf(init, k), ActionsOf(actions, k), at);
    }
  }

  lemma StartingExactly(row: Row, a: Adapter, k: Key, c: Context)
    ensures Starting(row, a, k, c) <==> c == ContextOf(row, a, k)
  {
    NoneOf(a.actions, k);
    hide ActionsOf;
    var mine := ContextOf(row, a, k);
    if Starting(row, a, k, c) { assert c.absent == mine.absent; }
  }

  /** The baseline in force, and the totals it has led to: the held one, or one this very frame completes. */
  ghost predicate Held(w: Ledger, row: Row, a: Adapter, d: Display, k: Key, b: Baseline, start: Applied)
  {
    var same := w.key == Some(Observed(Some(k.epoch), Some(k.street)));
    if same && w.baseline.Some? then b == w.baseline.value && start == Applied(w.totals, w.used)
    else
      && start == Applied(b.view.wagers, if same then w.used else {})
      && exists c :: Starting(row, a, k, c)
           && Track(if same then w.previous else None, row.frame, Looked(row, d), c).1 == Ok(Conditional(b))
  }

  // ---------------------------------------------------------------- the actions

  /** Every action of the street whose identity is not yet counted can be added to its seat. */
  predicate Countable(actions: seq<Action>, start: Applied)
  {
    forall i | 0 <= i < |actions| && IdentityOf(actions[i]) !in start.used
               && forall j | 0 <= j < i :: IdentityOf(actions[j]) != IdentityOf(actions[i]) ::
      var a := actions[i];
      && a.amount.Some? && a.amount.value >= 0.0 && 0 <= a.slot < |start.totals|
      && start.totals[a.slot].Chips? && start.totals[a.slot].value >= 0.0
  }

  /** Adding keeps which seats can be added to. */
  predicate SameSeats(start: Applied, t: Applied)
  {
    |t.totals| == |start.totals| && forall s | 0 <= s < |start.totals| ::
      (t.totals[s].Chips? <==> start.totals[s].Chips?)
      && (start.totals[s].Chips? && start.totals[s].value >= 0.0 ==> t.totals[s].value >= start.totals[s].value)
      && (start.totals[s].Chips? && start.totals[s].value < 0.0 ==> t.totals[s] == start.totals[s])
  }

  lemma {:induction false} CountedExactly(start: Applied, actions: seq<Action>)
    ensures Apply(start, actions).Some? <==> Countable(actions, start)
    ensures Apply(start, actions).Some? ==>
      && SameSeats(start, Apply(start, actions).value)
      && Apply(start, actions).value.used == start.used + Ids(actions)
  {
    if actions == [] {
      assert start.used + Ids([]) == start.used;
    } else {
      hide Countable, SameSeats, Ids, IdentityOf, ApplyOne, Adds;
      var n := |actions| - 1;
      var init, a := actions[..n], actions[n];
      CountedExactly(start, init);
      assert actions == init + [a];
      IdsSnoc(init, a);
      if Countable(init, start) { OneMore(start, Apply(start, init).value, init, a); }
      CountableSnoc(init, a, start);
    }
  }

  lemma FirstHere(actions: seq<Action>, start: Applied, n: nat)
    requires n < |actions|
    ensures IdentityOf(actions[n]) !in Ids(actions[..n]) <==>
            forall j | 0 <= j < n :: IdentityOf(actions[j]) != IdentityOf(actions[n])
  {
    forall j | 0 <= j < n ensures IdentityOf(actions[j]) in Ids(actions[..n]) { assert actions[j] in actions[..n]; }
    if IdentityOf(actions[n]) in Ids(actions[..n]) {
      var x :| x in actions[..n] && IdentityOf(x) == IdentityOf(actions[n]);
      var j :| 0 <= j < n && actions[..n][j] == x;
      assert IdentityOf(actions[j]) == IdentityOf(actions[n]);
    }
  }

  predicate Adds(a: Action, start: Applied)
  {
    && a.amount.Some? && a.amount.value >= 0.0 && 0 <= a.slot < |start.totals|
    && start.totals[a.slot].Chips? && start.totals[a.slot].value >= 0.0
  }

  lemma CountableSnoc(init: seq<Action>, a: Action, start: Applied)
    ensures Countable(init + [a], start) <==>
      Countable(init, start) && (IdentityOf(a) !in start.used && IdentityOf(a) !in Ids(init) ==> Adds(a, start))
  {
    var all, n := init + [a], |init|;
    assert all[n] == a && all[..n] == init && forall j | 0 <= j < n :: all[j] == init[j];
    FirstHere(all, start, n);
    hide IdentityOf, Ids;
    if Countable(all, start) {
      forall i | 0 <= i < n && IdentityOf(init[i]) !in start.used
                 && forall j | 0 <= j < i :: IdentityOf(init[j]) != IdentityOf(init[i])
        ensures Adds(init[i], start)
      {
        assert forall j | 0 <= j < i :: IdentityOf(all[j]) != IdentityOf(all[i]);
      }
    }
    if Countable(init, start) && (IdentityOf(a) !in start.used && IdentityOf(a) !in Ids(init) ==> Adds(a, start)) {
      forall i | 0 <= i <= n && IdentityOf(all[i]) !in start.used
                 && forall j | 0 <= j < i :: IdentityOf(all[j]) != IdentityOf(all[i])
        ensures Adds(all[i], start)
      {
        if i < n { assert forall j | 0 <= j < i :: IdentityOf(init[j]) != IdentityOf(init[i]); }
      }
    }
  }

  lemma OneMore(start: Applied, u: Applied, init: seq<Action>, a: Action)
    requires SameSeats(start, u) && u.used == start.used + Ids(init)
    ensures ApplyOne(u, a).Some? <==> (IdentityOf(a) !in start.used && IdentityOf(a) !in Ids(init) ==> Adds(a, start))
    ensures ApplyOne(u, a).Some? ==>
      SameSeats(start, ApplyOne(u, a).value) && ApplyOne(u, a).value.used == start.used + Ids(init) + {IdentityOf(a)}
  {
    hide Ids, IdentityOf;
  }

  // ---------------------------------------------------------------- the display

  function ChipsOf(w: Wager): real
  {
    if w.Chips? then w.value else 0.0
  }

  /** The eight seats added up. */
  lemma EightSeats(t: seq<Wager>)
    requires |t| == SEATS
    ensures Sum(t) == ChipsOf(t[0]) + ChipsOf(t[1]) + ChipsOf(t[2]) + ChipsOf(t[3])
                      + ChipsOf(t[4]) + ChipsOf(t[5]) + ChipsOf(t[6]) + ChipsOf(t[7])
  {
    SumFrom(t, 8);
    SumFrom(t, 7);
    SumFrom(t, 6);
    SumFrom(t, 5);
    SumFrom(t, 4);
    SumFrom(t, 3);
    SumFrom(t, 2);
    SumFrom(t, 1);
    hide Sum;
    assert t[..8] == t;
  }

  lemma SumFrom(t: seq<Wager>, n: nat)
    requires 1 <= n <= |t|
    ensures Sum(t[..n]) == Sum(t[..n - 1]) + ChipsOf(t[n - 1])
    ensures Sum(t[..0]) == 0.0
  {
    assert t[..n][..n - 1] == t[..n - 1];
  }

  /** Where the display shows a wager it is the ledger's; where it shows none the place is visibly empty. */
  predicate Confirmed(d: Display, t: seq<Wager>, s: int)
    requires 0 <= s < SEATS
  {
    match d.wagers[s]
    case Missing => d.visibility[s] == VisibleEmpty
    case Garbled => s >= |t| || t[s].NotApplicable? || t[s].value < 0.0
    case Shown(x) =>
      if x >= 0.0 then s < |t| && t[s] == Chips(x) else s >= |t| || t[s].NotApplicable? || t[s].value < 0.0
  }

  /** Title, center and every seat of the display confirm the totals, and no glyph of the street waits. */
  predicate Agrees(d: Display, a: Adapter, k: Key, b: Baseline, t: seq<Wager>)
  {
    && d.title.Shown? && d.title.value >= 0.0 && d.title.value == b.view.center + Sum(t)
    && (forall s | 0 <= s < SEATS :: Confirmed(d, t, s))
    && (forall i | 0 <= i < |a.pending| :: !OfStreet(a.pending[i].epoch, a.pending[i].street, k))
    && exists s | 0 <= s < |t| :: t[s].Chips?
  }

  lemma ConfirmedExactly(d: Display, t: seq<Wager>, s: int)
    requires 0 <= s < SEATS
    ensures Confirmed(d, t, s) <==> !Contradicts(d, t, s) && !UnknownRegion(d, s)
  {}

  /** Everything a published frame needs. */
  ghost predicate Ready(w: Ledger, row: Row, a: Adapter, d: Display, k: Key, b: Baseline, start: Applied, t: Applied)
  {
    && Opens(w, row, a, k) && Anchored(a, k) && Held(w, row, a, d, k, b, start)
    && d.center == Shown(b.view.center) && b.view.center >= 0.0
    && Countable(ActionsOf(a.actions, k), start) && Apply(start, ActionsOf(a.actions, k)) == Some(t)
    && Agrees(d, a, k, b, t.totals)
  }

  predicate Largest(price: real, t: seq<Wager>)
  {
    && (forall s | 0 <= s < |t| && t[s].Chips? :: t[s].value <= price)
    && exists s | 0 <= s < |t| :: t[s] == Chips(price)
  }

  lemma ComparedExactly(w: Ledger, frame: int, k: Key, a: Adapter, d: Display, b: Baseline)
    ensures var r := Compared(w, frame, k, a, d, b, b.view.center);
      && (r.outcome.Published? <==> Agrees(d, a, k, b, w.totals))
      && (r.outcome.Published? ==>
            && r.outcome.wagers == w.totals && r.outcome.first == b.first && r.outcome.second == b.second
            && r.outcome.applied == |w.used| && Largest(r.outcome.price, w.totals))
  {
    PriceIsMaximum(w.totals);
    forall s | 0 <= s < SEATS { ConfirmedExactly(d, w.totals, s); }
    hide Sum, Price, Contradicts, UnknownRegion, Confirmed;
    assert Waiting(a.pending, k) <==>
      exists i | 0 <= i < |a.pending| :: OfStreet(a.pending[i].epoch, a.pending[i].street, k);
  }

  lemma AccountedExactly(w: Ledger, frame: int, k: Key, a: Adapter, d: Display, b: Baseline)
    ensures var r, applied := Accounted(w, frame, k, a, d, b),
      Apply(Applied(w.totals, w.used), ActionsOf(a.actions, k));
      && (r.outcome.Published? <==>
            && d.center == Shown(b.view.center) && b.view.center >= 0.0
            && applied.Some? && Agrees(d, a, k, b, applied.value.totals))
      && (r.outcome.Published? ==>
            && r.outcome.wagers == applied.value.totals && r.outcome.first == b.first && r.outcome.second == b.second
            && r.outcome.applied == |applied.value.used| && Largest(r.outcome.price, applied.value.totals))
  {
    hide Compared, Apply, ActionsOf, Agrees, Largest;
    match Apply(Applied(w.totals, w.used), ActionsOf(a.actions, k))
    case None =>
    case Some(t) => ComparedExactly(w.(totals := t.totals, used := t.used), frame, k, a, d, b);
  }

  /** A frame that is ready is published, with the totals, their largest and the baseline's frames. */
  lemma ReadyIsPublished(
      w: Ledger, row: Row, a: Adapter, d: Display, k: Key, b: Baseline, start: Applied, t: Applied)
    requires Ready(w, row, a, d, k, b, start, t)
    ensures var r := Observing(w, row, a, d).outcome;
      && r.Published? && r.wagers == t.totals && r.first == b.first && r.second == b.second && r.applied == |t.used|
      && Largest(r.price, t.totals)
  {
    hide Accounted, Countable, Apply, ActionsOf, Agrees, Largest, Stage, StageIs, LastStatus, LastPosted, Track;
    StageExactly(a, Some(k.street));
    PostedExactly(a.epochEvents, k.epoch);
    var now := Rekeyed(w, row.frame, KeyNow(a));
    assert !Blocked(row);
    if now.baseline.Some? {
      AccountedExactly(now, row.frame, k, a, d, b);
    } else {
      var c :| Starting(row, a, k, c)
        && Track(now.previous, row.frame, Looked(row, d), c).1 == Ok(Conditional(b));
      StartingExactly(row, a, k, c);
      assert Looked(row, d) == CurrentOf(row, d);
      hide ContextOf, Starting, CurrentOf, Looked;
      var tracked := Track(now.previous, row.frame, CurrentOf(row, d), ContextOf(row, a, k));
      AccountedExactly(now.(previous := tracked.0, baseline := Some(b), totals := b.view.wagers), row.frame, k, a, d,
        b);
    }
  }

  /** Only a ready frame is published. */
  lemma PublishedIsReady(w: Ledger, row: Row, a: Adapter, d: Display)
    returns (k: Key, b: Baseline, start: Applied, t: Applied)
    requires Observing(w, row, a, d).outcome.Published?
    ensures Ready(w, row, a, d, k, b, start, t)
  {
    hide Accounted, Countable, Apply, ActionsOf, Agrees, Largest, Stage, StageIs, LastStatus, LastPosted, Track;
    var seen := KeyNow(a);
    k := Key(seen.epoch.value, seen.stage.value);
    StageExactly(a, Some(k.street));
    PostedExactly(a.epochEvents, k.epoch);
    var now := Rekeyed(w, row.frame, seen);
    assert Looked(row, d) == CurrentOf(row, d);
    if now.baseline.Some? {
      b := now.baseline.value;
      start := Applied(now.totals, now.used);
      AccountedExactly(now, row.frame, k, a, d, b);
    } else {
      var c := ContextOf(row, a, k);
      StartingExactly(row, a, k, c);
      hide ContextOf, Starting, CurrentOf, Looked;
      var tracked := Track(now.previous, row.frame, CurrentOf(row, d), c);
      b := tracked.1.value.baseline;
      start := Applied(b.view.wagers, now.used);
      AccountedExactly(now.(previous := tracked.0, baseline := Some(b), totals := b.view.wagers), row.frame, k, a, d,
        b);
    }
    CountedExactly(start, ActionsOf(a.actions, k));
    t := Apply(start, ActionsOf(a.actions, k)).value;
  }
}
